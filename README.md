# sqltoolkit, modelled in Dafny

sqltoolkit reads a file of MySQL statements and checks them before running them against a
server. The file is cut into statements. Each statement's leading keyword is checked against
an allow-list. Then each statement is dispatched on its first word:

- SELECT is sent to the server, and its answer is logged.
- CREATE, DROP and TRUNCATE run only when the table's existence allows it.
- INSERT is decoded into its parts. Its values are checked against the column types of the
  target table, and the primary-key columns are inspected.

Every step reports through an append-only log.

The repository holds three INSERT decoders:

- `SQLTokeniser`: a character-at-a-time state machine.
- `SQLParser`: a substring-search decoder.
- The word-array decoder inside `sql.ts`, which consumes the statement's words with `shift()`.

All three are modelled.

The model keeps the source's form:

- Objects the source updates in place are classes:
  - the tokeniser's statement record (`Tokeniser.ParsedStatement`);
  - the parser's record (`Parser.InsertRecord`);
  - the shared word array (`Words.WordQueue`);
  - the log (`Logging.Log`);
  - the server connection (`Executor.Connection`).
- Loops are methods with loop invariants.
- Each method is proved against a specification function, and the properties are lemmas
  about those functions.

JavaScript semantics are written out:

- `trim` uses JavaScript's white-space set.
- `indexOf` answers -1 when there is no match.
- `substring` clamps and swaps its bounds.
- `replace` with a string pattern replaces the first match only.
- An exception that escapes, such as a property read on `undefined`, is the `Threw` case of
  `Wrappers.Result`.
- A loop that never ends is the `None` case of an `Option`. The methods that run such a loop
  require the answer to exist.

| file | models |
|---|---|
| wrappers.dfy | `Option`, and `Result` with its `Threw` case |
| strings.dfy | the JavaScript string primitives the source relies on |
| interfaces.dfy | the records the modules exchange (`Column`, `Table`, `InsertStatement`, `SqlValue`, `LogStructure`) |
| log.dfy | log.ts |
| lists.dfy | `extractCSV`, `extractList` and `extractKVP`, which SQLParser.ts and SQLTokeniser.ts each carry an identical copy of |
| tokeniser.dfy | SQLTokeniser.ts |
| parser.dfy | SQLParser.ts |
| batch.dfy | the statement split and `validateSQL` of sql.ts |
| literals.dfy | `convertToCorrectDataType` of sql.ts |
| words.dfy | the word-array INSERT decoder of sql.ts and its helpers |
| schema.dfy | the type families, the column mapping, `checkValuesMatch_SQLDataType` and the primary-key test of sql.ts |
| executor.dfy | `processSQLStatement`, `processSelect`, `processInsert` and the DDL handlers of sql.ts |

## Model

| member | source | states |
|---|---|---|
| Logging.Log.constructor | log.ts:4 | the log starts empty |
| Logging.Log.Info | log.ts:6-8 | appends exactly one info entry carrying the message, the payload and the progress text, and changes nothing else |
| Logging.Log.Error | log.ts:10-12 | appends exactly one error entry carrying the message, the payload and the progress text, and changes nothing else |
| Logging.ProgressRoundTrip | log.ts:7 | the progress text `${index} of ${length}` reads back as the same index and length, so it loses nothing |
| Logging.RenderAppend | log.ts:14-26 | printing a longer log prints the shorter one first; later entries never change what earlier ones print |
| Logging.RenderOne | log.ts:15-24 | an entry prints an 80-character `=` rule, then an `[INFO][` or `[ERROR][` header, then its payload line only when it has a payload |
| Lists.FieldsCount | SQLParser.ts:203-225 | `extractCSV` yields one field more than there are commas outside quotes, so never zero fields |
| Lists.FieldsJoin | SQLParser.ts:203-225 | before trimming, the fields joined with commas give back the input exactly |
| Lists.QuotedCommaStays | SQLParser.ts:211-217 | a comma between quote characters does not cut the field |
| Lists.ExtractCSV | SQLTokeniser.ts:90-112 | the character loop returns the trimmed fields of the quote-aware split |
| Lists.BalancedList | SQLTokeniser.ts:114-131 | an accepted list starts with `(` and ends with `)` |
| Lists.ExtractList | SQLTokeniser.ts:114-131 | the character loop returns the text, less one leading space, exactly when it is a parenthesised list that ends outside quotes |
| Lists.ExtractKVP | SQLParser.ts:227-237 | the item loop builds the same object as the fold over the comma-separated items, or throws as that fold does |
| Lists.AssignSucceeds | SQLTokeniser.ts:133-143 | `extractKVP` does not throw exactly when every comma-separated item holds an `=` |
| Lists.AssignKeys | SQLParser.ts:231-234 | the object's keys are the initial keys plus the key of every item |
| Lists.AssignLastWins | SQLParser.ts:231-234 | a repeated key keeps the value of its last item |
| Lists.KeptUnlessAssigned | SQLParser.ts:231-234 | a key that no item assigns keeps its value |
| Lists.ItemsWithoutWhitespace | SQLParser.ts:228 | on text without white space, the items are the text split at its commas |
| Lists.KvpQuotedCommaThrows | SQLParser.ts:228 | a comma inside a quoted value cuts the item, and the piece without `=` makes the function throw |
| Tokeniser.MatchStatementType | SQLTokeniser.ts:46-56 | matches exactly the four keywords; only `INSERT INTO` moves the cursor, to the table name |
| Tokeniser.MatchTableName | SQLTokeniser.ts:58-88 | fires only for an INSERT; it fills the table name, possibly the columns, and moves to the values or SET list; nothing else changes |
| Tokeniser.MatchValues | SQLTokeniser.ts:145-158 | fires only for an INSERT; it fills a non-empty value list, moves to the row alias, and changes nothing else |
| Tokeniser.MatchSet | SQLTokeniser.ts:190-210 | fires only for an INSERT; it fills the SET assignments, moves to the row alias, and changes nothing else |
| Tokeniser.MatchRowAlias | SQLTokeniser.ts:160-180 | fills the alias and possibly its columns, moves to ON DUPLICATE KEY UPDATE, and changes nothing else |
| Tokeniser.MatchOnDuplicateKeyUpdate | SQLTokeniser.ts:182-188 | fires only at the last character; it fills the assignments and moves to the end of the statement |
| Tokeniser.RunCoversInput | SQLTokeniser.ts:21-28 | every character read is appended to the token exactly once: the consumed tokens plus the pending token are the text read so far |
| Tokeniser.AdvanceCovers | SQLTokeniser.ts:22-27 | one iteration moves the character it reads into the pending token or the consumed tokens |
| Tokeniser.RunThrewStays | SQLTokeniser.ts:21-28 | once a scan has thrown, it stays thrown |
| Tokeniser.RunStep | SQLTokeniser.ts:21-28 | the scan after k+1 characters is one `processToken` step from the scan after k |
| Tokeniser.StepMonotone | SQLTokeniser.ts:33-44 | a step never moves the cursor back, never changes a statement type once set, and keeps the original text |
| Tokeniser.RunStepMonotone | SQLTokeniser.ts:21-28 | between consecutive characters the cursor does not move back and the statement type is kept |
| Tokeniser.RunMonotone | SQLTokeniser.ts:21-28 | over the whole scan the cursor only moves forward and the statement type is assigned at most once |
| Tokeniser.RunKeepsOriginal | SQLTokeniser.ts:15-19 | the record keeps the text it was made from |
| Tokeniser.StepWellFormed | SQLTokeniser.ts:33-44 | each step keeps the fields consistent with the cursor: only an INSERT moves it, each field is filled by the component before the cursor, and the duplicate-key assignments exist exactly at the end |
| Tokeniser.TableNameWellFormed | SQLTokeniser.ts:58-88 | the table-name matcher keeps the record well formed |
| Tokeniser.ValuesWellFormed | SQLTokeniser.ts:145-158 | the values matcher keeps the record well formed |
| Tokeniser.ValuesFilledWellFormed | SQLTokeniser.ts:151-152 | filling a non-empty value list and moving to the row alias keeps the record well formed |
| Tokeniser.SetWellFormed | SQLTokeniser.ts:190-210 | the SET matcher keeps the record well formed |
| Tokeniser.RowAliasWellFormed | SQLTokeniser.ts:160-180 | the row-alias matcher keeps the record well formed |
| Tokeniser.RunWellFormed | SQLTokeniser.ts:12-31 | every record the scan passes through is well formed |
| Tokeniser.OnlyInsertIsDecoded | SQLTokeniser.ts:46-56 | a statement that is not an INSERT only gets its statement type; every other field stays as it started |
| Tokeniser.ParsedStatement.constructor | SQLTokeniser.ts:15-19 | the object literal of `tokenise`: original text, cursor on the statement type, no values |
| Tokeniser.CheckForStatementType | SQLTokeniser.ts:46-56 | answers and updates the record as `MatchStatementType` says |
| Tokeniser.CheckForTableNameAndColumns | SQLTokeniser.ts:58-88 | answers and updates the record as `MatchTableName` says |
| Tokeniser.CheckForValues | SQLTokeniser.ts:145-158 | answers and updates the record as `MatchValues` says |
| Tokeniser.CheckForSet | SQLTokeniser.ts:190-210 | throws, answers and updates the record as `MatchSet` says |
| Tokeniser.CheckForRowAlias | SQLTokeniser.ts:160-180 | answers and updates the record as `MatchRowAlias` says |
| Tokeniser.CheckForOnDuplicateKeyUpdate | SQLTokeniser.ts:182-188 | throws, answers and updates the record as `MatchOnDuplicateKeyUpdate` says |
| Tokeniser.ProcessToken | SQLTokeniser.ts:33-44 | the matcher of the component under the cursor decides, in the source's order |
| Tokeniser.Tokenise | SQLTokeniser.ts:12-31 | the character loop returns the record of the scan over the whole text, or throws |
| Tokeniser.TokenisedAll | SQLTokeniser.ts:2-10 | one record per statement, each tokenised on its own, in order; it throws exactly when some statement throws |
| Tokeniser.ParseStatements | SQLTokeniser.ts:2-10 | the loop returns `TokenisedAll` |
| Parser.DetectStatementType | SQLParser.ts:23-43 | INSERT exactly when the text starts with `insert` (ignoring case) and not with `select`; no type exactly when none of the seven prefixes matches |
| Parser.StripInsert | SQLParser.ts:53 | removes exactly a leading `INSERT ` in any case, and nothing otherwise |
| Parser.ProcessClauseFields | SQLParser.ts:111-200 | the clause fills exactly one of the values and the assignments; it fills the alias exactly when `as` occurs (even inside a word) and the duplicate-key assignments exactly when that phrase occurs; the rest is kept |
| Parser.ProcessClauseValues | SQLParser.ts:115-118 | a bare `(…)` clause gives the CSV fields of its inside |
| Parser.ProcessClauseAssignments | SQLParser.ts:115-122 | a bare SET clause gives its `extractKVP` object, or throws with it |
| Parser.DuplicateKeySkipsPhrase | SQLParser.ts:170 | the duplicate-key assignments start right after the 23 characters of the phrase |
| Parser.AsInsideValueCutsList | SQLParser.ts:112 | `as` inside a word (`'pass'`) is taken for a row alias, and the value list is cut short |
| Parser.KeywordIndex | SQLParser.ts:81-84 | the clause keyword position is -1 or inside the text |
| Parser.DecodeAfterIntoNull | SQLParser.ts:81-88 | after `into` the result is null exactly when neither ` values` nor ` set` occurs |
| Parser.DecodeAfterIntoOutcome | SQLParser.ts:67-90 | a decoded record keeps what came before, names a table by the table-name rule, and holds the values exactly when ` values` occurs and the assignments otherwise |
| Parser.DecodeInsertUnfold | SQLParser.ts:45-67 | the decoder is the part after `into` applied to a fresh record that carries the priority |
| Parser.DecodeInsertNull | SQLParser.ts:61-88 | the decoder returns null exactly when there is no case-sensitive `into`, or no ` values` or ` set` after it |
| Parser.DecodeInsertRecord | SQLParser.ts:45-92 | a decoded record keeps the statement and its priority, names a table, and holds either the values or the assignments, never both |
| Parser.UpperCaseIntoRejected | SQLParser.ts:61-65 | `INSERT INTO …` in upper case is rejected, because the `into` search is case-sensitive |
| Parser.CollectStep | SQLParser.ts:5-18 | one more statement extends the run by that statement's parse |
| Parser.CollectThrewStays | SQLParser.ts:5-18 | a throw on a prefix of the statements is a throw on the whole list |
| Parser.CollectInOrder | SQLParser.ts:5-18 | the collected records are the non-null parses of a subsequence of the input, in input order |
| Parser.ParsedAllInOrder | SQLParser.ts:2-21 | the parsed records are INSERT statements of the input, each decoded on its own, in input order, and there are never more of them than statements |
| Parser.InsertRecord.constructor | SQLParser.ts:46-50 | the initial record: original text, type INSERT, null priority |
| Parser.StoreBody | SQLParser.ts:116-121 | stores the values or assignments of the clause up to the cut, or throws |
| Parser.InsertStatementValueOrSetProcessor | SQLParser.ts:94-201 | branch for branch, leaves the record as `Process` says, or throws exactly when it does |
| Parser.ReadClause | SQLParser.ts:111-200 | leaves the record as `ProcessClause` says, or throws exactly when it does |
| Parser.ReadCutClause | SQLParser.ts:123-199 | the row-alias block and the duplicate-key block leave the record as `CutClause` says |
| Parser.ReadRowAlias | SQLParser.ts:125-164 | stores the body up to the cut, then the alias name and its columns |
| Parser.ReadDuplicateKey | SQLParser.ts:166-198 | stores the duplicate-key assignments, then the body up to the cut; it throws exactly when either `extractKVP` does |
| Parser.StoreBodyAgain | SQLParser.ts:166-198 | storing the body a second time, after the alias block has stored it, changes nothing |
| Parser.StoreBodyAfter | SQLParser.ts:170-175 | storing the body after the duplicate-key assignments gives the same record as storing it before |
| Parser.ReadPriority | SQLParser.ts:55-58 | the three priority tests set the priority to the leading keyword, the last test winning |
| Parser.DecodeInsertStatement | SQLParser.ts:45-92 | the method returns exactly what `DecodeInsert` specifies |
| Parser.DecodeAfterIntoRecord | SQLParser.ts:67-90 | the part after `into`, run on the record, returns what `DecodeAfterInto` specifies |
| Parser.ParseStatements | SQLParser.ts:2-21 | the loop returns `ParsedAll` |
| Parser.StartsWithIgnoringCasePrefix | SQLParser.ts:34-38 | a text that matches `^CREATE TABLE`, `^DROP TABLE` or `^ALTER TABLE` also matches the bare first keyword |
| Batch.PiecesFromJoin | sql.ts:24 | the pieces joined again with `;` give back the text: the split loses nothing but the terminators |
| Batch.PiecesJoin | sql.ts:24 | the whole text is the pieces joined with `;` |
| Batch.PiecesFromNoTerminator | sql.ts:24 | without a terminating `;` the current piece runs to the end of the text |
| Batch.SemicolonMidLineKept | sql.ts:24 | a `;` followed by more text on its line does not cut the statement |
| Batch.NonEmpty | sql.ts:24 | the filter keeps the non-empty pieces, each as often as it occurs, and no empty one |
| Batch.NonEmptyAppend | sql.ts:24 | the filter keeps order: filtering two lists one after the other is filtering their concatenation, and one piece is kept exactly when it is not empty |
| Batch.StatementsTrimmed | sql.ts:24 | every statement read is non-empty and has no white space at either end |
| Batch.FirstRejected | sql.ts:28-43 | nothing is rejected exactly when every statement is allowed; otherwise the answer is the first statement not allowed |
| Batch.ValidateSQL | sql.ts:27-46 | passes exactly when no statement is rejected; otherwise it logs one error naming the first rejected statement and stops |
| Batch.GetStatements | sql.ts:9-12 | returns the statements read exactly when all pass; then nothing is logged, otherwise the first rejected statement is |
| Batch.DetectedIsAllowed | sql.ts:29-39 | every statement that the INSERT decoder of SQLParser.ts classifies passes the allow-list |
| Literals.ConvertToCorrectDataType | sql.ts:67-84 | null exactly for `null` after one trailing comma is dropped; a number exactly for quote-free text other than `null` that `parseFloat` reads; never a boolean; a text keeps the value without its trailing comma |
| Literals.QuotedKeptVerbatim | sql.ts:71-72 | text that holds a quote is kept verbatim, quotes included |
| Literals.TrailingCommaIgnored | sql.ts:69 | one trailing comma makes no difference |
| Literals.SecondCommaStays | sql.ts:69 | only one trailing comma is removed |
| Literals.UpperNullIsText | sql.ts:73 | `NULL` in upper case is neither null nor a number |
| Literals.IntegerIsNumber | sql.ts:75-80 | the decimal text of every integer decodes as a number |
| Words.WordQueue.constructor | sql.ts:485 | the word array is the words of the statement |
| Words.WordQueue.Shift | sql.ts:101 | `parts.shift() \|\| ''`: the first word, removed; or `''` when the array is empty, which stays empty |
| Words.FirstQuoted | sql.ts:127-136 | finds the first word that holds a quote, or none when no word does |
| Words.QuotedString | sql.ts:123-139 | always consumes at least one word when it returns |
| Words.ExtractQuotedStrings | sql.ts:123-139 | the loop returns the joined text and leaves the words `QuotedString` says |
| Words.FirstQuotedAfter | sql.ts:127-136 | the search stops at the first word with a quote |
| Words.ClosingWordStripped | sql.ts:131 | the closing word `b',` gives back `b` |
| Words.QuotedWordsRejoined | sql.ts:123-139 | a quoted text that the split cut at its spaces is put back together with single spaces |
| Words.ReadItemName | sql.ts:104-108 | dequotes the next word and completes a quoted one, as `ItemName` says |
| Words.ListNamesStep | sql.ts:103-117 | one round of the loop either ends on a name holding `)` or reads one name and goes on |
| Words.ListLoopReadsNames | sql.ts:103-117 | the loop pushes one item per name it reads, the closing one last with its `)` removed |
| Words.ReadListItems | sql.ts:100-117 | the `while (!finishedPart)` loop returns the items and leaves the words `ListLoop` says |
| Words.ExtractValuesList | sql.ts:86-121 | the method returns the items and leaves the words `ValuesList` says |
| Words.ListNamesPlainNever | sql.ts:101-117 | over quote-free words none of which holds `)`, the loop never ends |
| Words.ListNamesPlainEnds | sql.ts:101-117 | over quote-free words the loop ends at the first word holding `)` and has read every word up to it |
| Words.ValuesListPlain | sql.ts:86-121 | over quote-free words, `extractValuesList` returns exactly when its first item or a later word holds `)`; its items are then the first item and every word up to that one |
| Words.QuotedFirstValueWithSpaceLoops | sql.ts:89-117 | a value list never finishes when its first item is a quoted text with a space, the first word holds no `)`, and no later word holds a quote |
| Words.ClosingAt | sql.ts:110-116 | finds the first word holding `)` once dequoted, or none when no word does |
| Words.ExtractKVP | sql.ts:141-157 | the loop throws exactly when fewer than three words remain for a pair; otherwise it returns the pairs and leaves the words `KvpWords` says |
| Words.KvpWordsShape | sql.ts:144-154 | it throws exactly for one or two words; a multiple of three words gives one pair per triple; any other count stops after the first pair |
| Words.CollapsedToSpaces | sql.ts:483 | after collapsing, the only white space left is the plain space |
| Words.WordsHaveNoWhitespace | sql.ts:483-485 | no word of the split holds white space |
| Words.FirstOn | sql.ts:546-548 | the position of the first word that is `on` in lower case, or -1 exactly when there is none |
| Words.WordIndex | sql.ts:547 | `indexOf` gives the first position holding the word, or -1 exactly when it is absent |
| Words.FindOn | sql.ts:544-548 | the `for … of` loop, with its `indexOf`, finds the first `on` |
| Words.ReadPartition | sql.ts:507-512 | reads the PARTITION clause as `PartitionStep` says |
| Words.ReadColumns | sql.ts:515-518 | reads the column list as `ColumnsStep` says |
| Words.ReadValues | sql.ts:521-525 | reads the VALUES list as `ValuesStep` says |
| Words.ReadSet | sql.ts:528-531 | reads the SET assignments as `SetStep` says, throwing exactly when it throws |
| Words.ReadRowAliases | sql.ts:534-540 | reads the AS clause as `AsStep` says |
| Words.ReadSelect | sql.ts:543-555 | records the SELECT text as `SelectStep` says and consumes no word |
| Words.ReadOnDuplicateKey | sql.ts:558-565 | skips four words and reads the assignments as `OnStep` says, throwing exactly when it throws |
| Words.DecodeInsertStatement | sql.ts:471-570 | the method returns exactly what `DecodeWords` specifies |
| Words.NonInsertIsEmpty | sql.ts:488-500 | a statement that does not start with `INSERT` and a modifier decodes to the empty record |
| Words.StepsKeepTableName | sql.ts:507-565 | no single clause touches the table name |
| Words.ClausesKeepTableName | sql.ts:507-565 | the clauses together never touch the table name |
| Words.TableNameIsThirdWord | sql.ts:504 | the table name is the third word with its backticks removed |
| Words.SelectLeavesOnDuplicateKeyUnread | sql.ts:543-565 | after `SELECT` no word is consumed, so a following ON DUPLICATE KEY UPDATE is never read |
| Schema.TypesOf | sql.ts:193-215 | the list is non-empty exactly for the four primitive names |
| Schema.TypeFamiliesDisjoint | sql.ts:196-212 | no engine type belongs to two families |
| Schema.TypeFamiliesDuplicateFree | sql.ts:196-212 | every family lists each type once |
| Schema.ColumnOfRowAsWritten | sql.ts:174-185 | the column as the source builds it: nullable exactly when `IS_NULLABLE` is non-empty, and a zero-based ordinal |
| Schema.ColumnOfRow | sql.ts:174-185 | the corrected column: it takes null exactly when `IS_NULLABLE` is `YES` or the server fills it (`auto_increment`), and otherwise as written |
| Schema.TableOfAsWritten | sql.ts:159-191 | the table has its name, its row count and one column per metadata row, in row order, each built as written |
| Schema.TableOf | sql.ts:159-191 | the same table with each column built by the corrected mapping |
| Schema.NotNullReadAsNullable | sql.ts:178 | as written, a `NOT NULL` column is read as nullable; the corrected mapping does not, unless the server fills it |
| Schema.ValueAt | sql.ts:408 | `values[i]` is missing exactly past the end |
| Schema.ColumnError | sql.ts:408-423 | a column contributes a message exactly when it does not accept its value |
| Schema.ErrorsEmptyIff | sql.ts:404-425 | no message exactly when every column accepts its value |
| Schema.ErrorsPerColumn | sql.ts:407-425 | every failing column contributes its own message; every message comes from a failing column; there are exactly as many messages as failing columns |
| Schema.FailingColumnsReported | sql.ts:407-425 | every failing column's message is gathered, and there are no more messages than columns |
| Schema.ErrorsFromFailingColumns | sql.ts:407-425 | every message gathered is the one some failing column gives |
| Schema.FailingColumnsCount | sql.ts:407-425 | the number of messages is the number of failing columns |
| Schema.MissingFailsOnlyNotNull | sql.ts:408-412 | a null or missing value fails only a column that is not nullable |
| Schema.DateColumnsTakeNoLiteral | sql.ts:414-423 | a date, time or year column accepts no decoded value but null |
| Schema.ExtraValuesIgnored | sql.ts:407 | values past the last column are never looked at |
| Schema.AsWrittenNeverMissing | sql.ts:178 | with the columns built as written, no value is ever reported missing |
| Schema.ErrorEntries | sql.ts:428 | one error entry per message, in order |
| Schema.CheckColumn | sql.ts:408-424 | the loop body gives the column's message as `ColumnError` says |
| Schema.CheckValuesMatch | sql.ts:402-432 | true exactly when every column accepts its value; the log gains one error per failing column, in column order |
| Schema.PrimaryKeyColumns | sql.ts:292 | the filter keeps exactly the `PRI` columns |
| Schema.PkFieldsAreNull | sql.ts:293-300 | true exactly when some primary-key column has a null value at its ordinal |
| Executor.Connection.constructor | sql.ts:52 | the connection holds the given tables and has sent nothing |
| Executor.Connection.Query | sql.ts:613 | a query appends the statement to what was sent |
| Executor.LogCreateNotice | sql.ts:607-612 | logs the existing or creating notice for a table or a view, and nothing for any other object |
| Executor.LogQueryError | sql.ts:613 | logs one error when the server rejects the statement |
| Executor.ProcessCreate | sql.ts:592-615 | the log, the statements sent and the throw are those `CreateOutcome` gives |
| Executor.ProcessRemoval | sql.ts:621-671 | DROP and TRUNCATE: the log, the statements sent and the throw are those `RemovalOutcome` gives |
| Executor.DdlGatedByExistence | sql.ts:604-670 | CREATE sends the statement exactly when the table is absent; DROP and TRUNCATE exactly when it exists |
| Executor.RemovalEntries | sql.ts:629-670 | DROP and TRUNCATE first log that they are processing, then that the table exists or does not, then any server error |
| Executor.CreateEntries | sql.ts:600-614 | CREATE logs one entry more for a table or a view, and none for any other object |
| Executor.MissingWordThrows | sql.ts:602-663 | with too few words the handler throws after its first entry and sends nothing |
| Executor.SecondRunIsSkipped | sql.ts:604-638 | running the same CREATE or DROP again, once the server has accepted it, sends nothing; TRUNCATE is sent again |
| Executor.DecideInsert | sql.ts:281-388 | the decisions of `processInsert` over the table built as written; the log gains the missing-table error, with the statement as payload, or the messages of the value check |
| Executor.ProcessInsert | sql.ts:278-389 | decodes with the word-array decoder and throws exactly when it throws, logging nothing; otherwise decides and logs as `DecideInsert` |
| Executor.MissingNotNullValueRejected | sql.ts:287-290 | with the corrected mapping, a missing or null value for a `NOT NULL` column the server does not fill stops the insert |
| Executor.NullAutoIncrementKeyLooksUp | sql.ts:287-300 | a null `auto_increment` key, with every other value fitting, reaches the record lookup both as written and with the corrected mapping |
| Executor.RolesWithNullKeyLooksUp | sql.ts:291-300 | `insert into roles values (null, 'Dummy Role', 0, 0)` against a `NOT NULL auto_increment` key reaches the record lookup, as written and corrected |
| Executor.KeysGivenWhenNoKeyIsNull | sql.ts:290-311 | values that fit and supply every key go on without a lookup |
| Executor.SelectEntries | sql.ts:222-227 | a SELECT logs one entry, an error exactly when the server rejects the query |
| Executor.ProcessSelect | sql.ts:221-228 | sends the statement and logs the error or the results |
| Executor.ProcessSQLStatement | sql.ts:52-65 | dispatches on the lower-cased first word to the handler's log, statements sent and throw; UPDATE, DELETE, ALTER and every other command log and send nothing |

## Left out

- Reading the file (`readFileSync`), `process.exit`, the console output (`console.log`,
  `console.warn`, `console.error`) and the program entry point. index.ts and Database.ts are
  not part of this model.
- The server is replaced by inputs:
  - `SHOW TABLES LIKE` is membership in a given set of table names; its `LIKE` wildcards
    are not modelled;
  - the metadata rows of `getTableMetadata` are given;
  - a failing `connection.query` is a given error message.
- `checkTableExists` is that same set membership.
- `checkRecordExists` (sql.ts:434-461) is not modelled, including its value escaping and
  its query. The model stops at the decision to look the record up.
- Executor.ProcessSelect: the results are logged as a given text; how JavaScript turns the
  rows array into text is not modelled. `processUpdate`, `processDelete` and
  `processAlter` have empty bodies.
- Executor.ProcessInsert: `Threw` is the decoder's throw only. The throws the record lookup
  can raise after `LookUpRecord` (sql.ts:441 reads `table.columns[index].name` past the
  last column) are not modelled, since the lookup is not. The same holds for the INSERT
  case of Executor.ProcessSQLStatement.
- The metadata queries of `checkTableExists` and `getTableMetadata` are not recorded in
  `executed`; only the statements the handlers run are.
- Parser.DetectStatementType, Schema.ColumnOfRowAsWritten, Executor.Command and the other
  members that map case use ASCII case mapping. JavaScript's `toLowerCase` and
  `toUpperCase` also map non-ASCII letters.
- The `async` execution order is not modelled. Each handler runs to completion before the
  next starts, as each one is awaited.
- Literals.ConvertToCorrectDataType: keeps the text that `parseFloat` reads (`Num`), not
  the floating-point number it yields.
- Words.ExtractValuesList, Words.ExtractQuotedStrings and Words.DecodeInsertStatement:
  these require their specification function to have an answer. On inputs where the
  source's loop spins forever on `shift() || ''`, the function answers `None`, and the
  method is not meant to be called.
- Executor.ProcessSQLStatement: for an INSERT it requires the word-array decoder to
  terminate, for the same reason.
- The tokeniser's bit-mask cursor is a datatype. The source only ever stores one flag in it,
  so the `&` tests become constructor tests.
- Batch.ReadStatements: the multi-line regular expression `/;\s*$/m` is modelled as a cut at
  every `;` that has only white space after it up to the end of its line. The white space
  it would consume is removed by the `trim` that follows.
- Schema.TableOf: uses the corrected column mapping (see Findings). The statement runner
  (Executor.DecideInsert) uses Schema.TableOfAsWritten, as the program does.

## Findings

| source | as written | input that shows it | evidently intended | confidence | as-written member | corrected member |
|---|---|---|---|---|---|---|
| sql.ts:178 | `nullable: Boolean(column.IS_NULLABLE)`: JavaScript's `Boolean` of any non-empty string is true | a column whose `IS_NULLABLE` is `'NO'` is marked nullable, so `checkValuesMatch_SQLDataType` never reports a missing value (Schema.AsWrittenNeverMissing) | a null or missing value is accepted exactly when `IS_NULLABLE` is `'YES'` or the server fills the column (`auto_increment`), so a null auto-increment key still reaches the record lookup (sql.ts:291-300) | not executed | Schema.ColumnOfRowAsWritten (Schema.NotNullReadAsNullable, Schema.AsWrittenNeverMissing), used by Executor.DecideInsert | Schema.ColumnOfRow (Schema.TableOf, Executor.MissingNotNullValueRejected, Executor.NullAutoIncrementKeyLooksUp) |
