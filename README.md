# python-hddb core, modelled in Dafny

This project models the core of python-hddb. python-hddb is a client that keeps tabular datasets in a DuckDB/MotherDuck database, together with a metadata catalog that describes them. The model covers five parts:

- **The grid query builders** (`query_builders.dfy`). A fetch request (`FetchParams`) becomes the SELECT, WHERE, GROUP BY, ORDER BY and COUNT fragments of a grouped, paginated query. One predicate decides every fragment: "doing grouping" holds while some grouping column has no chosen key yet.
- **The table operations** (`table_operations.dfy`, `table_operations_properties.dfy`). Each operation is a method of a `TableOperations` class whose fields are the engine state of one database:
  - the physical tables, each as its column list;
  - the `hd_tables` rows, keyed by table id;
  - the `hd_fields` rows;
  - the `hd_database` row.

  Every statement an operation sends may fail. Which statement fails, and with what engine error, is an explicit `Fault` input. The engine also refuses, on its own, DDL that contradicts the schema. A transactional method either commits its whole effect or rolls back to its starting state and returns the client error the source raises. Each method's postcondition ties it to a pure outcome function. The lemmas prove consistency, locality, atomicity and the error shapes about those functions.
- **Field ids and cleaning** (`field_helpers.dfy`). This covers field-id generation, the per-column metadata records and whole-cell blanking of null-like strings. The random letters, the UUIDs and the slug function are inputs.
- **Fetch-request validation** (`params.dfy`). This covers the field bounds, the `end_row` validator, the defaults, and the text-filter vocabulary.
- **The exception hierarchy** (`exceptions.dfy`). This covers message prefixes, the `details` defaulting and the in-place `table_name` update of `TableError`.

`text.dfy` models the Python `str` operations the ORDER BY builder uses: `strip()`, `split(",")`, `split()` and `join`. `common.dfy` holds `Option` and `Result`.

Where the documentation and the code disagree, the model follows the code:

- The grouped select emits no space after `rcd___id,`, although the docstring example shows one.
- The WHERE fragment starts with a space (`" WHERE "`).
- The grouped count keeps the code's newlines and trailing spaces, not the docstring's one-line example.

## Model

| member | source | states |
|---|---|---|
| QueryBuilders.IsDoingGrouping | python_hddb/utils/query_builders.py:4-14 | grouping goes on while there are more grouping columns than chosen keys |
| QueryBuilders.GroupColumn | python_hddb/utils/query_builders.py:34 | the next undrilled grouping column, `row_group_cols[len(group_keys)]`, shared by select, group-by and count |
| QueryBuilders.BuildSelect | python_hddb/utils/query_builders.py:32-38 | while grouping, the row-key select followed by the next undrilled grouping column, unquoted; otherwise exactly `SELECT *` |
| QueryBuilders.Condition | python_hddb/utils/query_builders.py:55 | one drill-down equality: the column double-quoted, ` = `, the key single-quoted |
| QueryBuilders.Conditions | python_hddb/utils/query_builders.py:54-57 | one `"col" = 'key'` condition per chosen key, paired with the grouping column at the same level, in order |
| QueryBuilders.BuildWhere | python_hddb/utils/query_builders.py:51-59 | empty exactly when there are no keys or no grouping columns, otherwise starts with ` WHERE `; defined only when every key has a grouping column |
| QueryBuilders.WhereFirstLevel | python_hddb/utils/query_builders.py:54-59 | one chosen key gives the single condition on the first grouping column |
| QueryBuilders.WhereDrillDown | python_hddb/utils/query_builders.py:54-59 | choosing one more key keeps every earlier condition and appends ` AND ` plus the condition on the current grouping column |
| QueryBuilders.WhereScenario | python_hddb/utils/query_builders.py:51-59 | the request grouped by country then city, with US chosen, filters on `"country" = 'US'` |
| QueryBuilders.BuildGroup | python_hddb/utils/query_builders.py:72-76 | empty exactly when not grouping, otherwise `GROUP BY` the double-quoted next undrilled column |
| QueryBuilders.SortTerms | python_hddb/utils/query_builders.py:93 | one term per comma-separated piece of the sort expression, at least one |
| QueryBuilders.SortTermStripped | python_hddb/utils/query_builders.py:93 | term `i` is piece `i` with its surrounding whitespace, and only that, removed: the slice after the piece's leading whitespace, blank text on either side, neither end a whitespace character |
| QueryBuilders.GroupingTerms | python_hddb/utils/query_builders.py:94-96 | keeps no more terms than it is given |
| QueryBuilders.GroupingTermsExact | python_hddb/utils/query_builders.py:94-96 | every kept term is one of the caller's terms and is non-blank with its first word a grouping column, and every caller's term that is so is kept |
| QueryBuilders.CountQualifying | python_hddb/utils/query_builders.py:94-96 | the number of terms whose first word is a grouping column, at most the number of terms |
| QueryBuilders.GroupingTermsLength | python_hddb/utils/query_builders.py:94-96 | the filter keeps exactly as many terms as qualify |
| QueryBuilders.GroupingTermsAt | python_hddb/utils/query_builders.py:94-96 | each qualifying term is kept at the position given by the number of qualifying terms before it, so the filter keeps the caller's order and repeats |
| QueryBuilders.GroupingTermsSnoc | python_hddb/utils/query_builders.py:94-96 | filtering one more term appends that term exactly when its first word is a grouping column |
| QueryBuilders.GroupingTermsKeepsAll | python_hddb/utils/query_builders.py:94-96 | when every term sorts by a grouping column, the filter returns the terms unchanged |
| QueryBuilders.BuildOrder | python_hddb/utils/query_builders.py:89-101 | empty exactly when the sort is missing or empty; outside grouping, the caller's sort verbatim after `ORDER BY ` |
| QueryBuilders.OrderAtLevel | python_hddb/utils/query_builders.py:92-101 | while grouping with k keys chosen, ORDER BY names the term that has exactly k qualifying terms before it |
| QueryBuilders.OrderPastLevels | python_hddb/utils/query_builders.py:92-101 | while grouping, when no more terms qualify than keys are chosen, ORDER BY is the caller's whole sort |
| QueryBuilders.OrderByOrigin | python_hddb/utils/query_builders.py:93-101 | a non-empty ORDER BY is the caller's whole sort or one trimmed term of it whose first word is a grouping column |
| QueryBuilders.OrderFollowsLevel | python_hddb/utils/query_builders.py:92-101 | with one sort term per grouping column, each drill-down level sorts by its own term, and a level past the terms sorts by the whole expression |
| QueryBuilders.BuildCount | python_hddb/utils/query_builders.py:121-131 | outside grouping, `SELECT COUNT(*) ` followed by from and where; while grouping, the whole multi-line text: the count over a `SELECT DISTINCT` of the next undrilled column, then the from and where text, then the closing parenthesis |
| QueryBuilders.FragmentsShareGroupColumn | python_hddb/utils/query_builders.py:34 | while grouping, select, group-by and count all name the same column: the next undrilled one |
| QueryBuilders.GroupByNamesColumn | python_hddb/utils/query_builders.py:72-76 | while grouping, the text between `GROUP BY "` and the closing quote is the next undrilled column |
| QueryBuilders.CountNamesColumn | python_hddb/utils/query_builders.py:121-131 | while grouping, the count's `SELECT DISTINCT` is followed by the next undrilled column and a space |
| QueryBuilders.PlainRequest | python_hddb/utils/query_builders.py:14 | without grouping columns, whatever keys are given: `SELECT *`, no WHERE, no GROUP BY, the plain count and the sort verbatim |
| QueryBuilders.LeafLevel | python_hddb/utils/query_builders.py:51-59 | once every level has a key: no grouping fragments, the whole path in WHERE, the sort verbatim |
| QueryBuilders.DefaultRequestFragments | python_hddb/models/params.py:22-25 | a request with only its window given yields `SELECT *` and empty WHERE, GROUP BY and ORDER BY |
| Text.IsSpace | python_hddb/utils/query_builders.py:93 | Python's `str.isspace` for one character: the ASCII and Unicode whitespace that `strip()` and `split()` remove |
| Text.TrimLeft | python_hddb/utils/query_builders.py:93 | a suffix of the input; what it drops is whitespace, and it starts with a non-space |
| Text.TrimRight | python_hddb/utils/query_builders.py:93 | a prefix of the input; what it drops is whitespace, and it ends with a non-space |
| Text.Strip | python_hddb/utils/query_builders.py:93 | no longer than the input, with neither end a whitespace character |
| Text.PrefixOfSuffix | python_hddb/utils/query_builders.py:93 | a prefix cut at whitespace of a suffix cut at whitespace is a slice with only whitespace around it |
| Text.StripIsSlice | python_hddb/utils/query_builders.py:93 | `strip()` keeps a contiguous slice and removes only whitespace on either side of it |
| Text.Split | python_hddb/utils/query_builders.py:93 | at least one piece, and no piece contains the separator |
| Text.SplitJoin | python_hddb/utils/query_builders.py:93 | joining the pieces with the separator gives back the input |
| Text.Join | python_hddb/utils/query_builders.py:59 | the parts with the separator between each two |
| Text.JoinSnoc | python_hddb/utils/query_builders.py:59 | joining one more part appends the separator and that part |
| Text.TakeWord | python_hddb/utils/query_builders.py:95 | the longest whitespace-free prefix of the input |
| Text.Words | python_hddb/utils/query_builders.py:95 | every word of `split()` is non-empty and free of whitespace |
| Text.TakeWordStopsAtSpace | python_hddb/utils/query_builders.py:95 | a word ends at the first whitespace character, whatever follows it |
| Text.WordsSplitAtSpace | python_hddb/utils/query_builders.py:95 | splitting at a whitespace character splits the word list, in order; with the next row and `split()` of the empty string being empty, this fixes `split()` as the maximal whitespace-free runs |
| Text.WordsOfWord | python_hddb/utils/query_builders.py:95 | a non-empty run without whitespace is one word, whole |
| Text.WordsEmptyIffBlank | python_hddb/utils/query_builders.py:95 | `split()` is empty exactly on blank strings, so `split()[0]` fails exactly there |
| Text.FirstWord | python_hddb/utils/query_builders.py:95 | a non-blank string's first word is non-empty and free of whitespace |
| Text.FirstWordAfterBlanks | python_hddb/utils/query_builders.py:95 | the first word is the longest whitespace-free prefix after the leading whitespace |
| Params.NewFilterModel | python_hddb/models/filters.py:55-57 | keeps the operation and value; `filterType` is the given one or "text" |
| Params.ParseFilterType | python_hddb/models/filters.py:22-29 | a recognised wire string names the filter type it was read as |
| Params.WireName | python_hddb/models/filters.py:22-29 | the wire string of each of the eight text-filter operations |
| Params.FilterTypeRoundTrip | python_hddb/models/filters.py:22-29 | each of the eight filter types reads back from its wire string |
| Params.Valid | python_hddb/models/params.py:20-31 | a request passes its bounds and the validator: a non-empty window of non-negative rows |
| Params.Violations | python_hddb/models/params.py:20-31 | `ge=0` on start_row fails exactly when it is negative; `gt=0` on end_row exactly when it is not positive; the validator exactly when both pass their bounds and end_row is not after start_row; no error exactly for a non-empty window |
| Params.NewFetchParams | python_hddb/models/params.py:20-31 | a request is built exactly when 0 <= start_row < end_row, keeping the fields given; otherwise the collected violations |
| Params.ValidWindowNonEmpty | python_hddb/models/params.py:11-13 | a valid request asks for a non-empty half-open window of non-negative rows |
| Params.DefaultsWhenOmitted | python_hddb/models/params.py:22-25 | omitted sort and filters are none, omitted grouping lists are empty |
| Params.EmptyWindowRejected | python_hddb/models/params.py:27-31 | an end row at or before a valid start row is refused with exactly the validator's message |
| FieldHelpers.LetterAtIsAsciiLetters | python_hddb/utils/helpers.py:24 | the alphabet runs from a to z, then A to Z, and every position is an ASCII letter |
| FieldHelpers.RandomSuffix | python_hddb/utils/helpers.py:24 | one ASCII letter per draw |
| FieldHelpers.LetterAt | python_hddb/utils/helpers.py:24 | the letter at an index of `string.ascii_letters`: `a` to `z`, then `A` to `Z` |
| FieldHelpers.GenerateFieldId | python_hddb/utils/helpers.py:10-26 | the row key maps to itself; any other name maps to its slug, `_` and exactly `length` ASCII letters |
| FieldHelpers.FieldIdRoundTrip | python_hddb/utils/helpers.py:24-26 | the slug and the random suffix can be read back from a generated id |
| FieldHelpers.GeneratedIdNotReserved | python_hddb/utils/helpers.py:21-26 | with a suffix of three or more letters, an id equals the row key exactly when the column is the row key |
| FieldHelpers.FieldIdCharset | python_hddb/utils/helpers.py:25-26 | a slug of `[a-z0-9_]` characters gives an id of letters, digits and underscores only |
| FieldHelpers.GenerateFieldMetadata | python_hddb/utils/helpers.py:52-59 | one record per column |
| FieldHelpers.MetadataEntries | python_hddb/utils/helpers.py:52-59 | record `i` has column `i` as label, the `i`-th fresh UUID and an id generated from that label with the `i`-th draw |
| FieldHelpers.MetadataReservesRowKey | python_hddb/utils/helpers.py:21-22 | only the row-key column is given the row key as its id |
| FieldHelpers.CleanCell | python_hddb/utils/helpers.py:72 | a null-like cell becomes empty and every other cell is kept |
| FieldHelpers.IsNullLike | python_hddb/utils/helpers.py:72 | the keys of the replace dictionary: `nan`, `NaN` and `None` |
| FieldHelpers.CleanFrame | python_hddb/utils/helpers.py:72 | same columns and shape, and every cell cleaned in place |
| FieldHelpers.CleanedHasNoNullLike | python_hddb/utils/helpers.py:72 | a cleaned dataset holds no null-like cell |
| FieldHelpers.CleanIdempotent | python_hddb/utils/helpers.py:72 | cleaning twice is cleaning once |
| FieldHelpers.CleanIsWholeCell | python_hddb/utils/helpers.py:72 | matching is whole-cell: text that merely contains a null-like word is kept |
| Exceptions.OrEmpty | python_hddb/exceptions.py:15 | `details or {}`: empty exactly when no details or empty details were given, otherwise the caller's details |
| Exceptions.Prefix | python_hddb/exceptions.py:30-116 | the text each subclass puts before the caller's message: none for the base class, `Connection Error: `, `Query Error: `, `Table Error: ` (also for TableExistsError), `Transaction Error: `, `Validation Error: `, `Data Type Error: ` |
| Exceptions.NewClientError | python_hddb/exceptions.py:13-16 | keeps the message as given; details default to the empty map |
| Exceptions.NewConnectionError | python_hddb/exceptions.py:28-30 | message prefixed `Connection Error: ` |
| Exceptions.NewQueryError | python_hddb/exceptions.py:42-46 | message prefixed `Query Error: `, with ` in query: ` and the statement appended first when the details name one |
| Exceptions.NewTableError | python_hddb/exceptions.py:57-62 | message prefixed `Table Error: `; the details are the caller's plus `table_name` |
| Exceptions.NewTableExistsError | python_hddb/exceptions.py:73-74 | message `Table Error: Table '<name>' already exists`, with `table_name` in the details |
| Exceptions.NewTransactionError | python_hddb/exceptions.py:86-88 | message prefixed `Transaction Error: ` |
| Exceptions.NewValidationError | python_hddb/exceptions.py:100-102 | message prefixed `Validation Error: ` |
| Exceptions.NewDataTypeError | python_hddb/exceptions.py:114-116 | message prefixed `Data Type Error: ` |
| Exceptions.ParseFormatted | python_hddb/exceptions.py:30 | the prefixes form a prefix-free code: every subclass's message reads back as its family and the caller's exact text |
| Exceptions.QueryErrorReadsBack | python_hddb/exceptions.py:44-46 | a query error reads back as a query error with the caller's text and the quoted statement |
| Exceptions.TableExistsReadsBack | python_hddb/exceptions.py:73-74 | a table-exists error reads back as a table error naming the table |
| Exceptions.RaiseTableError | python_hddb/exceptions.py:57-62 | raises the same error as the value model; a non-empty caller dictionary gains `table_name` in place, and an empty one is left alone |
| TableOperations.NoDuplicates | python_hddb/operations/table_operations.py:142-148 | a column list the engine accepts names each column once |
| TableOperations.DistinctFieldKeys | python_hddb/operations/table_operations.py:236-248 | no two `hd_fields` rows of one table carry the same column id |
| TableOperations.Described | python_hddb/operations/table_operations.py:236-248 | some `hd_fields` row describes the given column of the given table |
| TableOperations.FieldsDescribeColumns | python_hddb/operations/table_operations.py:236-248 | each field row names an existing column of an existing table, once, and each physical column has a field row |
| TableOperations.Consistent | python_hddb/operations/table_operations.py:129-352 | `hd_tables` has a row for exactly the physical tables, with ncol their column count; columns are distinct; `hd_fields` describes the physical columns one to one |
| TableOperations.FirstFailure | python_hddb/operations/table_operations.py:159 | the first failing statement decides the error: an injected failure up to the refused statement wins, then the engine's refusal |
| TableOperations.Filter | python_hddb/operations/table_operations.py:190-192 | the kept rows are exactly the rows the condition accepts |
| TableOperations.FilterAppend | python_hddb/operations/table_operations.py:340-343 | filtering a list with one more row filters the list, then that row |
| TableOperations.FilterAll | python_hddb/operations/table_operations.py:340-343 | a condition that accepts every row keeps them all |
| TableOperations.RemoveColumn | python_hddb/operations/table_operations.py:331-333 | dropping a present column shortens the list by one and keeps every other name |
| TableOperations.RemoveColumnKeepsDistinct | python_hddb/operations/table_operations.py:331-333 | distinct columns stay distinct, and the dropped one is gone |
| TableOperations.RemoveAppended | python_hddb/operations/table_operations.py:276-278 | dropping a just-added column gives back the old list |
| TableOperations.RenameMap | python_hddb/operations/table_operations.py:135 | the rename dictionary has one key per label |
| TableOperations.RenameMapAt | python_hddb/operations/table_operations.py:135 | a label with no later duplicate maps to its own entry's id |
| TableOperations.RenamedColumnsAreIds | python_hddb/operations/table_operations.py:134-136 | with distinct labels the renamed columns are the generated ids, in input order |
| TableOperations.PhysicalColumns | python_hddb/operations/table_operations.py:134-136 | `df.rename(columns=...)`: each column takes the id its label maps to |
| TableOperations.PhysicalColumnsRenames | python_hddb/operations/table_operations.py:134-136 | as many columns as before; a column whose label a metadata entry carries takes that entry's id, any other keeps its label |
| TableOperations.DuplicateLabelsCollide | python_hddb/operations/table_operations.py:134-136 | two equal labels are renamed to the same physical column |
| TableOperations.CreateRefusal | python_hddb/operations/table_operations.py:142-148 | the engine refuses a CREATE without columns (a parser error), then one naming an existing user table or one of the catalog tables `hd_tables` and `hd_fields`, or repeating a column (a catalog error) |
| TableOperations.CreateTableError | python_hddb/operations/table_operations.py:159-165 | a catalog error becomes TableExistsError with the error text, org and db in its details; any other engine error becomes QueryError `Error creating table: ` with table, org and db |
| TableOperations.FieldRowsFor | python_hddb/operations/table_operations.py:236-248 | one `hd_fields` row per metadata entry, in order: its fld___id, id and label, the table's name and type `Txt` |
| TableOperations.AfterCreateTable | python_hddb/operations/table_operations.py:142-156 | the committed state of create_table: the table's columns, its `hd_tables` row and its field rows appended |
| TableOperations.CreateTableOutcome | python_hddb/operations/table_operations.py:129-165 | the first failing statement or refusal rolls everything back and gives its error; otherwise the committed state |
| TableOperations.AfterDropTable | python_hddb/operations/table_operations.py:184-192 | the table, its `hd_tables` row and every field row of that table removed |
| TableOperations.DropTableError | python_hddb/operations/table_operations.py:196-200 | QueryError `Error deleting table: ` plus the engine text, with table, org and db in its details |
| TableOperations.CatalogDeleteAt | python_hddb/operations/table_operations.py:187-192 | the metadata DELETE that reads the catalog table a drop of that name removed: statement 2 for `hd_tables`, 3 for `hd_fields` |
| TableOperations.CatalogDeleteRefusal | python_hddb/operations/table_operations.py:184-192 | after `DROP TABLE` of a catalog table's name, the engine refuses the DELETE that reads it with a catalog error; it refuses nothing else |
| TableOperations.AddRefusal | python_hddb/operations/table_operations.py:276-278 | the engine refuses ADD COLUMN on a missing table or an existing column |
| TableOperations.DropRefusal | python_hddb/operations/table_operations.py:331-333 | the engine refuses DROP COLUMN on a missing table, a missing column, or the table's last column |
| TableOperations.ColumnError | python_hddb/operations/table_operations.py:298-303 | QueryError with the operation's text plus the engine text, and table, column, org and db in its details; delete_column raises the same shape at python_hddb/operations/table_operations.py:347-352 |
| TableOperations.ShiftNcol | python_hddb/operations/table_operations.py:281-284 | `UPDATE hd_tables SET ncol = ncol + delta WHERE id = tbl`: the table's row gains `delta`, and without a row nothing changes; delete_column subtracts one at python_hddb/operations/table_operations.py:336-339 |
| TableOperations.AfterAddColumn | python_hddb/operations/table_operations.py:276-294 | the column appended, ncol+1 and one field row from the `column` dictionary |
| TableOperations.AfterDeleteColumn | python_hddb/operations/table_operations.py:331-343 | the column dropped by slug, ncol-1 and the field rows of that table with that field id deleted |
| TableOperations.UpdateFields | python_hddb/operations/table_operations.py:413-414 | every field row with that field id, in any table, gets the new label and type |
| TableOperations.CreateHdDatabaseOutcome | python_hddb/operations/table_operations.py:91-112 | the `hd_database` row, or rollback and a QueryError at the first failing or refused statement |
| TableOperations.WrapDatabaseError | python_hddb/operations/table_operations.py:58-59 | any error inside create_database becomes `Error creating database: ...` with org and db |
| TableOperations.CreateTablesFrom | python_hddb/operations/table_operations.py:55-56 | creates the tables in order, each in its own transaction, and stops at the first error |
| TableOperations.TableOperations.Rollback | python_hddb/operations/table_operations.py:160 | `ROLLBACK;` restores the state saved at `BEGIN TRANSACTION;` |
| TableOperations.TableOperations.CreateHdDatabase | python_hddb/operations/table_operations.py:91-112 | the new state and the result are those of the metadata-row outcome |
| TableOperations.TableOperations.InsertTableMetadata | python_hddb/operations/table_operations.py:220-249 | adds the `hd_tables` row and, through the temporary rows, one `hd_fields` row per entry in order; stops at the first failing statement |
| TableOperations.TableOperations.CreateTable | python_hddb/operations/table_operations.py:129-165 | the new state and the result are those of the create-table outcome |
| TableOperations.TableOperations.DropTable | python_hddb/operations/table_operations.py:180-200 | unless a statement fails or the name is a catalog table's, the table, its `hd_tables` row and its `hd_fields` rows are gone; otherwise rollback and a QueryError with the first failure's text |
| TableOperations.TableOperations.AddColumn | python_hddb/operations/table_operations.py:272-303 | True and the column, ncol+1 and one field row, unless a statement fails or the engine refuses; then rollback and a QueryError naming the column |
| TableOperations.TableOperations.DeleteColumn | python_hddb/operations/table_operations.py:324-352 | True and the column dropped, ncol-1 and its field rows deleted, unless a statement fails or the engine refuses; then rollback and a QueryError |
| TableOperations.TableOperations.GetTableMetadata | python_hddb/operations/table_operations.py:374-393 | the row's nrow, ncol and id exactly when the query runs and the row exists; otherwise the not-found or fetch QueryError |
| TableOperations.TableOperations.UpdateFieldMetadata | python_hddb/operations/table_operations.py:412-425 | without a transaction: the matching field rows updated, or the state unchanged and a QueryError |
| TableOperations.TableOperations.CreateDatabase | python_hddb/operations/table_operations.py:47-59 | a count mismatch changes nothing; otherwise the metadata row, then the tables one transaction each, with errors rewrapped |
| TableOperations.TableOperations.CreateTables | python_hddb/operations/table_operations.py:55-59 | the loop over the names: the new state and the result are those of CreateTablesFrom from the old state |
| TableOperationsProperties.FilterKeepsDistinctKeys | python_hddb/operations/table_operations.py:190-192 | deleting field rows keeps distinct (table, id) pairs distinct |
| TableOperationsProperties.AfterCreateKeepsConsistent | python_hddb/operations/table_operations.py:142-156 | committing a new table with distinct columns that are the metadata ids keeps field rows and columns one to one |
| TableOperationsProperties.CreateTableKeepsConsistent | python_hddb/operations/table_operations.py:129-165 | create_table keeps the catalog consistent, field rows and physical columns one to one included, whether it commits or rolls back |
| TableOperationsProperties.CreateTableEffect | python_hddb/operations/table_operations.py:142-156 | with distinct labels, commits exactly when no statement fails, the dataset has columns, the table is new and not a catalog table, and the ids are distinct; then the table has the generated ids as its columns |
| TableOperationsProperties.CreateTableLayout | python_hddb/operations/table_operations.py:221-248 | a commit adds the table, its row `{tbl, tbl, nrow, ncol}` and one `Txt` field row per entry after the existing ones; every other table is untouched |
| TableOperationsProperties.CreateTableErrorShape | python_hddb/operations/table_operations.py:159-165 | a catalog conflict gives TableExistsError with the engine text under `error`; any other engine error gives `Query Error: Error creating table: ...` |
| TableOperationsProperties.CreateTableFailure | python_hddb/operations/table_operations.py:159-165 | a failure leaves the catalog unchanged; a dataset with columns naming an existing table or a catalog table is always refused with TableExistsError unless an earlier statement failed |
| TableOperationsProperties.CreateTableFailureRepeats | python_hddb/operations/table_operations.py:159-165 | retrying a failed create from the catalog it rolled back to fails again with the same error and the same catalog |
| TableOperationsProperties.DuplicateLabelsReportedAsExisting | python_hddb/operations/table_operations.py:134-162 | repeated column labels make the CREATE fail with TableExistsError, although the table does not exist |
| TableOperationsProperties.DropTableKeepsConsistent | python_hddb/operations/table_operations.py:180-200 | drop_table keeps the catalog consistent, field rows and physical columns one to one included |
| TableOperationsProperties.DropTableEffect | python_hddb/operations/table_operations.py:184-192 | the table, its row and its field rows are gone; other tables, their rows and their field rows are untouched |
| TableOperationsProperties.DropTableCommits | python_hddb/operations/table_operations.py:180-200 | dropping a user table commits exactly when no statement fails; dropping `hd_tables` or `hd_fields` never commits, and fails with a catalog error unless an earlier statement failed |
| TableOperationsProperties.AddColumnKeepsConsistent | python_hddb/operations/table_operations.py:276-294 | adding a new column keeps the catalog consistent, the new column getting exactly one field row, and increments that table's ncol |
| TableOperationsProperties.ColumnMatchesField | python_hddb/operations/table_operations.py:325-326 | the `column` dictionary's field id is the one of the column its slug names, and of no other column of the table |
| TableOperationsProperties.DeleteColumnKeepsConsistent | python_hddb/operations/table_operations.py:331-343 | when the dictionary's slug and field id agree with the catalog, dropping the column keeps the catalog consistent, decrements ncol, and no field row of that id and table remains |
| TableOperationsProperties.DeleteColumnMismatchOrphans | python_hddb/operations/table_operations.py:331-343 | when they disagree, the field row of the dropped column stays behind and the catalog is no longer consistent |
| TableOperationsProperties.AddThenDeleteRestores | python_hddb/operations/table_operations.py:276-343 | adding then deleting a column restores the tables and ncol, and restores the whole catalog when no field row had that id |
| TableOperationsProperties.UpdateFieldsEffect | python_hddb/operations/table_operations.py:413-414 | only label and type change, of exactly the rows with that field id in any table; applying it twice is applying it once |
| TableOperationsProperties.UpdateFieldsKeepsConsistent | python_hddb/operations/table_operations.py:413-414 | updating field metadata keeps the catalog consistent, field rows and physical columns one to one included |
| TableOperationsProperties.MetadataAfterCreate | python_hddb/operations/table_operations.py:221-224 | after a committed create, the table's row holds the dataset's row and column counts |
| TableOperationsProperties.HdDatabaseEffect | python_hddb/operations/table_operations.py:91-112 | one row `{org__db, org, db, n}` exactly when no statement fails and none exists; otherwise no change and a QueryError without details |
| TableOperationsProperties.DatabaseErrorsBecomeQueryErrors | python_hddb/operations/table_operations.py:58-59 | any error inside create_database comes out as `Query Error: Error creating database: ...` with org and db |
| TableOperationsProperties.CreateTablesKeepsConsistent | python_hddb/operations/table_operations.py:55-56 | creating the tables one by one keeps the catalog consistent, field rows and physical columns one to one included |
| TableOperationsProperties.CreateTableGrows | python_hddb/operations/table_operations.py:142-148 | a committed create adds the new table and alters no existing one |
| TableOperationsProperties.CreateTablesKeepsExisting | python_hddb/operations/table_operations.py:55-56 | creating a run of tables never removes or alters a table already there |
| TableOperationsProperties.FailingTable | python_hddb/operations/table_operations.py:55-56 | the index of the first table whose creation fails, or the number of tables |
| TableOperationsProperties.FailingTableInRange | python_hddb/operations/table_operations.py:55-56 | the failing index lies between the first table still to create and the number of tables |
| TableOperationsProperties.CreateTablesFailsIff | python_hddb/operations/table_operations.py:55-59 | a run reports an error exactly when some table's creation fails |
| TableOperationsProperties.CreateTablesCommitsBefore | python_hddb/operations/table_operations.py:55-56 | every table before the failing one is present in the final catalog |
| TableOperationsProperties.CreateTablesFailureKeepsPrefix | python_hddb/operations/table_operations.py:55-59 | a run fails exactly when some table k fails, and the tables before k stay committed |
| TableOperationsProperties.CreateTablesAllCreated | python_hddb/operations/table_operations.py:55-56 | when the run succeeds, every named table exists |
| TableOperationsProperties.CreateTablesFailureRollsBackLast | python_hddb/operations/table_operations.py:55-59 | when table k fails, the run ends in a catalog from which creating table k again fails with the error the run reports and changes nothing: the catalog that creation rolled back to |

## Left out

- python_hddb/client.py: connection set-up, MotherDuck upload, `close` and the `execute` wrapper are I/O. When the client is `HdDB`, its `execute` turns engine errors into QueryError before the `except duckdb.Error` handlers see them. The model follows the handlers of table_operations.py with an abstract engine error.
- The MotherDuck attach decorator (python_hddb/utils/decorators.py) is environment access and I/O. The model assumes the database is attached.
- drop_database: its single `DROP DATABASE` statement acts on the whole database, outside the one-database state modelled here.
- Physical row contents are not modelled. A table is its column list, and its row count is taken from the dataset (`nrow`).
- The engine's refusal texts are stand-ins for DuckDB's own messages. The refusals themselves follow DuckDB's documented behaviour as recalled: a `CREATE TABLE` with a repeated column name is refused with a catalog error, one without columns with a parser error, and dropping a table's last column with a catalog error.
- `hd_tables` and `hd_fields` are assumed to exist in every database. Nothing in the modelled code creates them: the creating calls at python_hddb/client.py:45-46 are commented out. On a fresh database the `INSERT INTO hd_tables` at python_hddb/operations/table_operations.py:221 would fail, and create_table would report that catalog error as TableExistsError.
- `_create_hd_database` creates an unqualified `hd_database` table in the connection's current database (python_hddb/operations/table_operations.py:95), not inside `org__db`. The model keeps one database, so it does not tell the two apart.
- create_database never creates the `org__db` database itself. The model assumes it already exists.
- WhereDefined is the condition under which build_where_sql does not raise IndexError: it raises when there are more chosen keys than grouping columns. The model states this as a precondition rather than modelling the exception.
- OrderDefined is the condition under which build_order_sql does not raise IndexError: while grouping, a blank sort term has no first word. The model states this as a precondition rather than modelling the exception.
- DeleteColumnKeepsConsistent assumes the `column` dictionary's slug and field id agree with the catalog (ColumnMatchesField). The code trusts its caller for this. DeleteColumnMismatchOrphans shows what happens when they do not.
- AddRefusal: add_column on a table named `hd_tables` or `hd_fields` is refused as a missing table, because the model does not hold the catalog tables' own columns. In the source the ALTER extends the catalog table itself, the `ncol` UPDATE matches no row, and the call commits with a field row naming the catalog table.
- DropRefusal: delete_column on a table named `hd_tables` or `hd_fields` is likewise refused as a missing table. In the source the ALTER would drop a column of the catalog table itself, which the model does not represent.
- DuckDB's case-insensitive identifier matching is not modelled: names compare exactly.
- `hd_tables` is a map keyed by table id, so the model holds at most one row per id. get_table_metadata reads the first matching row in the source, and that choice is not modelled.
- The `db_created_at` and `db_updated_at` timestamps of `hd_database` are left out (clock).
- A `ROLLBACK` that itself fails is not modelled.
- A missing key in the `column` dictionary (a KeyError) is not modelled. ColumnSpec always carries every key.
- SQL injection through the interpolated names and keys is out of scope. The fragments are modelled as the exact text the code builds.
- Logging is out of scope.
- `slugify`, `uuid.uuid4()` and `random.choices` are inputs: a slug function, a list of UUID strings and per-column letter draws.
- pandas `astype(str)` formatting is not modelled. Cells are modelled as text already in their string form. A float NaN cell is covered through its string form "nan".
- Pydantic coercion of non-integer inputs is not modelled. The validator's `values` is read as the dictionary of fields that passed validation (`info.data`), so the validator compares only against a start_row that passed its own bound. Under pydantic 2's `field_validator`, the second argument is a ValidationInfo object, and the membership test at python_hddb/models/params.py:29 would most likely raise TypeError instead. The model follows the evidently intended reading.
- `FieldsParams` and the `TextFilter` model are declarations only and are not modelled; `TextFilterType` and `FilterModel` are.
- python_hddb/helpers.py, a legacy duplicate of the field metadata helper with a different key, is not part of this model.
- Python's `str.isspace` is modelled for the characters whose Unicode category or bidirectional class makes them whitespace. Characters outside that list are treated as non-space.
