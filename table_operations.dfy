/**
 * The catalog effects of the table operations. The engine state one database
 * (`org__db`) holds is modelled abstractly: each physical table as its column list,
 * the `hd_tables` catalog as a map from table id to its row, the `hd_fields` catalog
 * as a sequence of rows, and the `hd_database` row. Every statement the operations
 * send may fail; which one fails, and how, is an explicit input (a `Fault`). Beside
 * those failures the engine refuses, on its own, the DDL that contradicts its schema
 * (creating a table that exists, adding a column that exists, dropping one that does
 * not). A transactional operation either applies its whole effect or rolls back to the
 * state it started from and raises a client error.
 */
module TableOperations {
  import opened Common
  import opened Exceptions
  import opened FieldHelpers

  // ---------------------------------------------------------------- catalog state

  /** A row of `hd_tables` (`label`, `nrow`, `ncol`), keyed by its `id`. */
  datatype TableRow = TableRow(tableLabel: string, nrow: int, ncol: int)

  /** A row of `hd_fields`: `fld___id`, `id` (the physical column), `label`, `tbl` and `type`. */
  datatype FieldRow = FieldRow(fldId: string, id: string, fieldLabel: string, tbl: string, typ: string)

  /** The row of `hd_database`: `id`, `username`, `slug` and `db_n_tables` (timestamps left out). */
  datatype DatabaseRow = DatabaseRow(id: string, username: string, slug: string, nTables: int)

  /** Everything the operations read or change. */
  datatype Catalog = Catalog(
    physical: map<string, seq<string>>,
    tables: map<string, TableRow>,
    fields: seq<FieldRow>,
    database: Option<DatabaseRow>)

  predicate NoDuplicates(s: seq<string>) {
    forall i, j :: 0 <= i < j < |s| ==> s[i] != s[j]
  }

  /** No two `hd_fields` rows describe the same column of the same table. */
  predicate DistinctFieldKeys(fields: seq<FieldRow>) {
    forall i, j :: 0 <= i < j < |fields| && fields[i].tbl == fields[j].tbl ==> fields[i].id != fields[j].id
  }

  /** Some `hd_fields` row describes column `col` of table `t`. */
  predicate Described(fields: seq<FieldRow>, t: string, col: string) {
    exists x :: x in fields && x.tbl == t && x.id == col
  }

  /**
   * The `hd_fields` rows describe the physical columns one to one: each row names a
   * column of its table, no two rows name the same column, every column has its row.
   */
  predicate FieldsDescribeColumns(physical: map<string, seq<string>>, fields: seq<FieldRow>) {
    && (forall x :: x in fields ==> x.tbl in physical && x.id in physical[x.tbl])
    && DistinctFieldKeys(fields)
    && (forall t, col :: t in physical && col in physical[t] ==> Described(fields, t, col))
  }

  /**
   * The catalog agrees with the schema: one `hd_tables` row per physical table, whose
   * `ncol` is that table's column count; no table has two columns of the same name;
   * one `hd_fields` row per physical column.
   */
  predicate Consistent(c: Catalog) {
    && c.tables.Keys == c.physical.Keys
    && (forall t :: t in c.tables ==> t in c.physical && c.tables[t].ncol == |c.physical[t]|)
    && (forall t :: t in c.physical ==> NoDuplicates(c.physical[t]))
    && FieldsDescribeColumns(c.physical, c.fields)
  }

  // ---------------------------------------------------------------- engine failures

  /** A `duckdb.Error`; `CatalogException` is the subclass the operations tell apart. */
  datatype EngineError = CatalogException(text: string) | OtherError(text: string)

  /** Which statement of an operation fails (counted from 0, the first one sent), if any. */
  datatype Fault = NoFault | FailsAt(statement: nat, error: EngineError)

  predicate HitsIn(fault: Fault, lo: nat, hi: nat) {
    fault.FailsAt? && lo <= fault.statement < hi
  }

  /**
   * The error that stops a run of `count` statements whose statement `refusalAt` the
   * engine refuses with `refusal` (if `Some`): the first failing statement wins.
   */
  function FirstFailure(fault: Fault, refusalAt: nat, refusal: Option<EngineError>, count: nat)
    : (r: Option<EngineError>)
    requires refusalAt < count
    ensures r.None? <==> !HitsIn(fault, 0, count) && refusal.None?
    ensures r.Some? && refusal.None? ==> r == Some(fault.error)
    ensures HitsIn(fault, 0, refusalAt + 1) ==> r == Some(fault.error)
    ensures !HitsIn(fault, 0, refusalAt + 1) && refusal.Some? ==> r == refusal
  {
    if HitsIn(fault, 0, refusalAt + 1) then Some(fault.error)
    else if refusal.Some? then refusal
    else if HitsIn(fault, refusalAt + 1, count) then Some(fault.error)
    else None
  }

  /** What statement `k` does under the fault: fail with the injected error, or with the engine's own refusal. */
  function Execute(fault: Fault, k: nat, refusal: Option<EngineError>): Option<EngineError> {
    if fault.FailsAt? && fault.statement == k then Some(fault.error) else refusal
  }

  // ---------------------------------------------------------------- sequence helpers

  /** The rows `keep` accepts, in their order. */
  function Filter(rows: seq<FieldRow>, keep: FieldRow -> bool): (r: seq<FieldRow>)
    ensures |r| <= |rows|
    ensures forall x :: x in r <==> x in rows && keep(x)
  {
    if rows == [] then []
    else (if keep(rows[0]) then [rows[0]] else []) + Filter(rows[1..], keep)
  }

  lemma {:induction false} FilterAppend(rows: seq<FieldRow>, x: FieldRow, keep: FieldRow -> bool)
    ensures Filter(rows + [x], keep) == Filter(rows, keep) + (if keep(x) then [x] else [])
    decreases |rows|
  {
    if rows == [] {
      assert [] + [x] == [x];
    } else {
      var head: seq<FieldRow> := if keep(rows[0]) then [rows[0]] else [];
      var tail := if keep(x) then [x] else [];
      assert (rows + [x])[0] == rows[0] && (rows + [x])[1..] == rows[1..] + [x];
      FilterAppend(rows[1..], x, keep);
      calc {
        Filter(rows + [x], keep);
        head + Filter(rows[1..] + [x], keep);
        head + (Filter(rows[1..], keep) + tail);
        (head + Filter(rows[1..], keep)) + tail;
      }
    }
  }

  lemma {:induction false} FilterAll(rows: seq<FieldRow>, keep: FieldRow -> bool)
    requires forall i :: 0 <= i < |rows| ==> keep(rows[i])
    ensures Filter(rows, keep) == rows
    decreases |rows|
  {
    if rows != [] {
      FilterAll(rows[1..], keep);
    }
  }

  /** The column list after `DROP COLUMN`: the first column of that name removed. */
  function RemoveColumn(cols: seq<string>, name: string): (r: seq<string>)
    ensures name in cols ==> |r| == |cols| - 1
    ensures name !in cols ==> r == cols
    ensures forall y :: y != name ==> (y in r <==> y in cols)
  {
    if cols == [] then []
    else if cols[0] == name then cols[1..]
    else [cols[0]] + RemoveColumn(cols[1..], name)
  }

  lemma {:induction false} RemoveColumnKeepsDistinct(cols: seq<string>, name: string)
    requires NoDuplicates(cols)
    ensures NoDuplicates(RemoveColumn(cols, name)) && name !in RemoveColumn(cols, name)
    decreases |cols|
  {
    if cols != [] && cols[0] != name {
      assert NoDuplicates(cols[1..]);
      RemoveColumnKeepsDistinct(cols[1..], name);
      assert cols[0] !in cols[1..];
    } else if cols != [] {
      assert cols[0] !in cols[1..];
      assert NoDuplicates(cols[1..]);
    }
  }

  lemma {:induction false} RemoveAppended(cols: seq<string>, name: string)
    requires name !in cols
    ensures RemoveColumn(cols + [name], name) == cols
    decreases |cols|
  {
    if cols == [] {
    } else {
      assert (cols + [name])[1..] == cols[1..] + [name];
      RemoveAppended(cols[1..], name);
    }
  }

  // ---------------------------------------------------------------- create_table

  /**
   * `{field["label"]: field["id"] for field in metadata}`: a dict built in order, so
   * the last entry for a label wins.
   */
  function RenameMap(meta: seq<FieldMetadata>): (m: map<string, string>)
    ensures forall l :: l in m <==> exists i :: 0 <= i < |meta| && meta[i].displayLabel == l
  {
    if meta == [] then map[]
    else
      var last := meta[|meta| - 1];
      var m := RenameMap(meta[..|meta| - 1]);
      assert forall i :: 0 <= i < |meta| - 1 ==> meta[..|meta| - 1][i] == meta[i];
      m[last.displayLabel := last.id]
  }

  /** Each label maps to the id of some entry carrying that label. */
  lemma {:induction false} RenameMapValues(meta: seq<FieldMetadata>, l: string)
    requires l in RenameMap(meta)
    ensures exists i :: 0 <= i < |meta| && meta[i].displayLabel == l && meta[i].id == RenameMap(meta)[l]
    decreases |meta|
  {
    var last := meta[|meta| - 1];
    var init := meta[..|meta| - 1];
    if l == last.displayLabel {
      assert meta[|meta| - 1].id == RenameMap(meta)[l];
    } else {
      RenameMapValues(init, l);
      var i :| 0 <= i < |init| && init[i].displayLabel == l && init[i].id == RenameMap(init)[l];
      assert meta[i] == init[i];
    }
  }

  /** A label whose later entries all differ maps to its own entry's id. */
  lemma {:induction false} RenameMapAt(meta: seq<FieldMetadata>, i: nat)
    requires i < |meta|
    requires forall j :: i < j < |meta| ==> meta[j].displayLabel != meta[i].displayLabel
    ensures meta[i].displayLabel in RenameMap(meta)
    ensures RenameMap(meta)[meta[i].displayLabel] == meta[i].id
    decreases |meta|
  {
    if i < |meta| - 1 {
      var init := meta[..|meta| - 1];
      assert init[i] == meta[i];
      assert forall j :: i < j < |init| ==> init[j] == meta[j];
      RenameMapAt(init, i);
    }
  }

  /** `df.rename(columns=...)`: each column takes the id its label maps to. */
  function PhysicalColumns(columns: seq<string>, meta: seq<FieldMetadata>): (r: seq<string>)
  {
    var m := RenameMap(meta);
    seq(|columns|, i requires 0 <= i < |columns| => if columns[i] in m then m[columns[i]] else columns[i])
  }

  /**
   * Renaming keeps the column count; a column whose label some metadata entry carries
   * takes that entry's id, any other column keeps its label.
   */
  lemma PhysicalColumnsRenames(columns: seq<string>, meta: seq<FieldMetadata>)
    ensures |PhysicalColumns(columns, meta)| == |columns|
    ensures forall i :: 0 <= i < |columns| ==>
              var r := PhysicalColumns(columns, meta);
              || (exists k :: 0 <= k < |meta| && meta[k].displayLabel == columns[i] && r[i] == meta[k].id)
              || (r[i] == columns[i] && forall k :: 0 <= k < |meta| ==> meta[k].displayLabel != columns[i])
  {
    var m := RenameMap(meta);
    var r := PhysicalColumns(columns, meta);
    forall i | 0 <= i < |columns|
      ensures || (exists k :: 0 <= k < |meta| && meta[k].displayLabel == columns[i] && r[i] == meta[k].id)
              || (r[i] == columns[i] && forall k :: 0 <= k < |meta| ==> meta[k].displayLabel != columns[i])
    {
      if columns[i] in m {
        RenameMapValues(meta, columns[i]);
      }
    }
  }

  /** The generated ids, in metadata order. */
  function Ids(meta: seq<FieldMetadata>): seq<string> {
    seq(|meta|, i requires 0 <= i < |meta| => meta[i].id)
  }

  /** With distinct column labels the physical columns are the generated ids, in input order. */
  lemma RenamedColumnsAreIds(columns: seq<string>, meta: seq<FieldMetadata>)
    requires |meta| == |columns| && NoDuplicates(columns)
    requires forall i :: 0 <= i < |meta| ==> meta[i].displayLabel == columns[i]
    ensures PhysicalColumns(columns, meta) == Ids(meta)
  {
    forall i | 0 <= i < |meta| ensures PhysicalColumns(columns, meta)[i] == meta[i].id {
      RenameMapAt(meta, i);
    }
  }

  /** Equal labels are renamed alike, so the physical column list repeats a name. */
  lemma DuplicateLabelsCollide(columns: seq<string>, meta: seq<FieldMetadata>)
    ensures !NoDuplicates(columns) ==> !NoDuplicates(PhysicalColumns(columns, meta))
  {
    if !NoDuplicates(columns) {
      var i, j :| 0 <= i < j < |columns| && columns[i] == columns[j];
      var cols := PhysicalColumns(columns, meta);
      assert cols[i] == cols[j];
    }
  }

  /** One `hd_fields` row per metadata entry, in order, with the table's name and type 'Txt'. */
  function FieldRowsFor(meta: seq<FieldMetadata>, tbl: string): seq<FieldRow> {
    seq(|meta|, i requires 0 <= i < |meta| => FieldRow(meta[i].fldId, meta[i].id, meta[i].displayLabel, tbl, "Txt"))
  }

  /** The catalog tables every `org__db` holds beside the user tables. */
  const CatalogTables: set<string> := {"hd_tables", "hd_fields"}

  /**
   * The engine's own refusal of `CREATE TABLE` (the texts stand in for the engine's): a
   * table without columns does not parse, the name of a user table or of a catalog table
   * or a repeated column name clashes with the catalog.
   */
  function CreateRefusal(physical: map<string, seq<string>>, tbl: string, cols: seq<string>): Option<EngineError> {
    if cols == [] then Some(OtherError("Parser Error: Table must have at least one column!"))
    else if tbl in physical || tbl in CatalogTables then Some(CatalogException("Catalog Error: Table with name " + tbl + " already exists!"))
    else if !NoDuplicates(cols) then Some(CatalogException("Catalog Error: duplicate column name"))
    else None
  }

  /** Statements sent by `create_table` for `n` metadata entries. */
  function CreateTableStatements(n: nat): nat { n + 8 }

  /** The error `create_table` raises for an engine error. */
  function CreateTableError(org: string, db: string, tbl: string, e: EngineError): HdError {
    match e
    case CatalogException(text) =>
      NewTableExistsError(tbl, Some(map["error" := text, "org" := org, "db" := db]))
    case OtherError(text) =>
      NewQueryError("Error creating table: " + text, Some(map["table" := tbl, "org" := org, "db" := db]))
  }

  function AfterCreateTable(c: Catalog, tbl: string, cols: seq<string>, nrow: nat, meta: seq<FieldMetadata>): Catalog {
    c.(physical := c.physical[tbl := cols],
       tables := c.tables[tbl := TableRow(tbl, nrow, |cols|)],
       fields := c.fields + FieldRowsFor(meta, tbl))
  }

  /** What `create_table` leaves behind and returns, from a given catalog. */
  function CreateTableOutcome(c: Catalog, org: string, db: string, tbl: string, df: Frame,
                              slugify: string -> string, entropy: Entropy, fault: Fault)
    : (Catalog, Result<(), HdError>)
    requires Supplies(entropy, df.columns)
  {
    var meta := GenerateFieldMetadata(df.columns, slugify, entropy);
    var cols := PhysicalColumns(df.columns, meta);
    var failure := FirstFailure(fault, 1, CreateRefusal(c.physical, tbl, cols), CreateTableStatements(|meta|));
    if failure.None? then (AfterCreateTable(c, tbl, cols, |df.rows|, meta), Ok(()))
    else (c, Err(CreateTableError(org, db, tbl, failure.value)))
  }

  // ---------------------------------------------------------------- the other operations

  function DropTableError(org: string, db: string, tbl: string, e: EngineError): HdError {
    NewQueryError("Error deleting table: " + e.text, Some(map["table" := tbl, "org" := org, "db" := db]))
  }

  /**
   * Dropping a table named after a catalog table drops that catalog table, so the
   * metadata `DELETE` that reads it next finds no table: statement 2 for `hd_tables`,
   * statement 3 for `hd_fields`.
   */
  function CatalogDeleteAt(tbl: string): nat {
    if tbl == "hd_tables" then 2 else 3
  }

  /** The engine's refusal of statement `k` of `drop_table`, if any. */
  function CatalogDeleteRefusal(tbl: string, k: nat): Option<EngineError> {
    if tbl in CatalogTables && k == CatalogDeleteAt(tbl)
    then Some(CatalogException("Catalog Error: Table with name " + tbl + " does not exist!"))
    else None
  }

  function AfterDropTable(c: Catalog, tbl: string): Catalog {
    c.(physical := c.physical - {tbl},
       tables := c.tables - {tbl},
       fields := Filter(c.fields, (f: FieldRow) => f.tbl != tbl))
  }

  /** The `column` dictionary `add_column` and `delete_column` take. */
  datatype ColumnSpec = ColumnSpec(slug: string, fldId: string, headerName: string, typ: string)

  function AddRefusal(physical: map<string, seq<string>>, tbl: string, slug: string): Option<EngineError> {
    if tbl !in physical then Some(CatalogException("Catalog Error: Table with name " + tbl + " does not exist!"))
    else if slug in physical[tbl] then Some(CatalogException("Catalog Error: Column with name " + slug + " already exists!"))
    else None
  }

  function DropRefusal(physical: map<string, seq<string>>, tbl: string, slug: string): Option<EngineError> {
    if tbl !in physical then Some(CatalogException("Catalog Error: Table with name " + tbl + " does not exist!"))
    else if slug !in physical[tbl] then Some(CatalogException("Catalog Error: Column with name " + slug + " does not exist!"))
    else if |physical[tbl]| == 1 then Some(CatalogException("Catalog Error: Cannot drop column: table only has one column remaining!"))
    else None
  }

  function ColumnError(what: string, org: string, db: string, tbl: string, slug: string, e: EngineError): HdError {
    NewQueryError(what + e.text, Some(map["table" := tbl, "column" := slug, "org" := org, "db" := db]))
  }

  /** `UPDATE hd_tables SET ncol = ncol + delta WHERE id = tbl`: no row, no change. */
  function ShiftNcol(tables: map<string, TableRow>, tbl: string, delta: int): map<string, TableRow> {
    if tbl in tables then tables[tbl := tables[tbl].(ncol := tables[tbl].ncol + delta)] else tables
  }

  function AfterAddColumn(c: Catalog, tbl: string, column: ColumnSpec): Catalog
    requires tbl in c.physical
  {
    c.(physical := c.physical[tbl := c.physical[tbl] + [column.slug]],
       tables := ShiftNcol(c.tables, tbl, 1),
       fields := c.fields + [FieldRow(column.fldId, column.slug, column.headerName, tbl, column.typ)])
  }

  function AfterDeleteColumn(c: Catalog, tbl: string, slug: string, fldId: string): Catalog
    requires tbl in c.physical
  {
    c.(physical := c.physical[tbl := RemoveColumn(c.physical[tbl], slug)],
       tables := ShiftNcol(c.tables, tbl, -1),
       fields := Filter(c.fields, (f: FieldRow) => !(f.fldId == fldId && f.tbl == tbl)))
  }

  /** `UPDATE hd_fields SET label = ?, type = ? WHERE fld___id = ?`, across every table. */
  function UpdateFields(rows: seq<FieldRow>, fldId: string, newLabel: string, newType: string): seq<FieldRow> {
    seq(|rows|, i requires 0 <= i < |rows| =>
      if rows[i].fldId == fldId then rows[i].(fieldLabel := newLabel, typ := newType) else rows[i])
  }

  /** The dictionary `get_table_metadata` returns: `nrow`, `ncol` and `tbl_name`. */
  datatype TableMetadata = TableMetadata(nrow: int, ncol: int, tblName: string)

  function DatabaseId(org: string, db: string): string { org + "__" + db }

  function CreateHdDatabaseOutcome(c: Catalog, org: string, db: string, n: nat, fault: Fault)
    : (Catalog, Result<(), HdError>)
  {
    var refusal := if c.database.Some?
                   then Some(CatalogException("Catalog Error: Table with name hd_database already exists!"))
                   else None;
    var failure := FirstFailure(fault, 1, refusal, 4);
    if failure.None? then (c.(database := Some(DatabaseRow(DatabaseId(org, db), org, db, n))), Ok(()))
    else (c, Err(NewQueryError("Error creating database metadata: " + failure.value.text, None)))
  }

  // ---------------------------------------------------------------- create_database

  /** Why `create_database` fails: the count check's ValueError, or a client error. */
  datatype DatabaseFailure = CountMismatch(message: string) | Failed(error: HdError)

  const CountMismatchMessage: string := "The number of dataframes must match the number of table names"

  /** Every error raised inside `create_database`'s body comes out as this QueryError. */
  function WrapDatabaseError(org: string, db: string, inner: HdError): HdError {
    NewQueryError("Error creating database: " + inner.message, Some(map["org" := org, "db" := db]))
  }

  /** The randomness and faults `create_database` consumes: one fault for the metadata, one per table. */
  predicate Supplied(dataframes: seq<Frame>, names: seq<string>, entropies: seq<Entropy>, faults: seq<Fault>) {
    && |names| == |dataframes| && |entropies| == |dataframes| && |faults| == |dataframes| + 1
    && forall k :: 0 <= k < |dataframes| ==> Supplies(entropies[k], dataframes[k].columns)
  }

  /** Creating tables `i..` one transaction each, stopping at the first failure. */
  function CreateTablesFrom(c: Catalog, org: string, db: string, dataframes: seq<Frame>, names: seq<string>,
                            slugify: string -> string, entropies: seq<Entropy>, faults: seq<Fault>, i: nat)
    : (Catalog, Result<(), HdError>)
    requires Supplied(dataframes, names, entropies, faults) && i <= |names|
    decreases |names| - i, 1
  {
    if i == |names| then (c, Ok(()))
    else
      CreateTablesAfter(CreateTableOutcome(c, org, db, names[i], dataframes[i], slugify, entropies[i], faults[i + 1]),
                        org, db, dataframes, names, slugify, entropies, faults, i)
  }

  /** Going on after table `i`'s creation: its error ends the run, its success moves to the next table. */
  function CreateTablesAfter(step: (Catalog, Result<(), HdError>), org: string, db: string, dataframes: seq<Frame>,
                             names: seq<string>, slugify: string -> string, entropies: seq<Entropy>, faults: seq<Fault>, i: nat)
    : (Catalog, Result<(), HdError>)
    requires Supplied(dataframes, names, entropies, faults) && i < |names|
    decreases |names| - i, 0
  {
    if step.1.Err? then step
    else CreateTablesFrom(step.0, org, db, dataframes, names, slugify, entropies, faults, i + 1)
  }

  // ---------------------------------------------------------------- the operations object

  /** The engine state the operations reach through their client. */
  class TableOperations {
    var physical: map<string, seq<string>>
    var tables: map<string, TableRow>
    var fields: seq<FieldRow>
    var database: Option<DatabaseRow>

    constructor (c: Catalog)
      ensures State() == c
    {
      physical, tables, fields, database := c.physical, c.tables, c.fields, c.database;
    }

    function State(): Catalog
      reads this
    {
      Catalog(physical, tables, fields, database)
    }

    /** `ROLLBACK;`: back to the state saved at `BEGIN TRANSACTION;`. */
    method Rollback(saved: Catalog)
      modifies this
      ensures State() == saved
    {
      physical, tables, fields, database := saved.physical, saved.tables, saved.fields, saved.database;
    }

    /** `_create_hd_database(org, db, tables)`. */
    method CreateHdDatabase(org: string, db: string, n: nat, fault: Fault) returns (r: Result<(), HdError>)
      modifies this
      ensures (State(), r) == CreateHdDatabaseOutcome(old(State()), org, db, n, fault)
    {
      var saved := State();
      var err := Execute(fault, 0, None);                       // BEGIN TRANSACTION;
      if err.None? {
        err := Execute(fault, 1, if database.Some?            // CREATE TABLE hd_database (...)
                                 then Some(CatalogException("Catalog Error: Table with name hd_database already exists!"))
                                 else None);
      }
      if err.None? {
        err := Execute(fault, 2, None);                         // INSERT INTO hd_database ...
        if err.None? { database := Some(DatabaseRow(DatabaseId(org, db), org, db, n)); }
      }
      if err.None? { err := Execute(fault, 3, None); }          // COMMIT;
      if err.Some? {
        Rollback(saved);
        r := Err(NewQueryError("Error creating database metadata: " + err.value.text, None));
      } else {
        r := Ok(());
      }
    }

    /**
     * `_insert_table_metadata`, from statement `first` on: the `hd_tables` row, the
     * `temp_metadata` rows one by one, then the `hd_fields` rows copied from them.
     * On failure it stops where it is; its caller rolls back.
     */
    method InsertTableMetadata(tbl: string, df: Frame, metadata: seq<FieldMetadata>, fault: Fault, first: nat)
      returns (err: Option<EngineError>)
      modifies this
      ensures physical == old(physical) && database == old(database)
      ensures err == (if HitsIn(fault, first, first + |metadata| + 4) then Some(fault.error) else None)
      ensures err.None? ==> tables == old(tables)[tbl := TableRow(tbl, |df.rows|, |df.columns|)]
      ensures err.None? ==> fields == old(fields) + FieldRowsFor(metadata, tbl)
    {
      err := Execute(fault, first, None);                       // INSERT INTO hd_tables ...
      if err.Some? { return; }
      tables := tables[tbl := TableRow(tbl, |df.rows|, |df.columns|)];
      err := Execute(fault, first + 1, None);                   // CREATE TEMP TABLE temp_metadata
      if err.Some? { return; }
      // the temp table's rows; its `tbl` column is not read back, the copy uses the literal
      var temp: seq<FieldMetadata> := [];
      var i := 0;
      while i < |metadata|
        invariant 0 <= i <= |metadata|
        invariant temp == metadata[..i]
        invariant physical == old(physical) && database == old(database) && fields == old(fields)
        invariant tables == old(tables)[tbl := TableRow(tbl, |df.rows|, |df.columns|)]
        invariant !HitsIn(fault, first, first + 2 + i)
      {
        err := Execute(fault, first + 2 + i, None);             // INSERT INTO temp_metadata VALUES ...
        if err.Some? { return; }
        temp := temp + [metadata[i]];
        i := i + 1;
      }
      assert temp == metadata;
      err := Execute(fault, first + 2 + |metadata|, None);      // INSERT INTO hd_fields SELECT ... FROM temp_metadata
      if err.Some? { return; }
      fields := fields + FieldRowsFor(temp, tbl);
      err := Execute(fault, first + 3 + |metadata|, None);      // DROP TABLE temp_metadata
    }

    /** `create_table(org, db, tbl, df)`. */
    method CreateTable(org: string, db: string, tbl: string, df: Frame,
                       slugify: string -> string, entropy: Entropy, fault: Fault)
      returns (r: Result<(), HdError>)
      requires Supplies(entropy, df.columns)
      modifies this
      ensures (State(), r) == CreateTableOutcome(old(State()), org, db, tbl, df, slugify, entropy, fault)
    {
      var metadata := GenerateFieldMetadata(df.columns, slugify, entropy);
      var renamed := CleanFrame(Frame(PhysicalColumns(df.columns, metadata), df.rows));
      var saved := State();
      var err := Execute(fault, 0, None);                       // BEGIN TRANSACTION;
      if err.None? {
        err := Execute(fault, 1, CreateRefusal(physical, tbl, renamed.columns));  // CREATE TABLE
        if err.None? { physical := physical[tbl := renamed.columns]; }
      }
      if err.None? {
        err := Execute(fault, 2, None);                         // INSERT INTO ... SELECT * FROM df_renamed
      }
      if err.None? {
        err := InsertTableMetadata(tbl, renamed, metadata, fault, 3);
      }
      if err.None? {
        err := Execute(fault, |metadata| + 7, None);            // COMMIT;
      }
      if err.Some? {
        Rollback(saved);
        r := Err(CreateTableError(org, db, tbl, err.value));
      } else {
        r := Ok(());
      }
    }

    /** `drop_table(org, db, tbl)`. */
    method DropTable(org: string, db: string, tbl: string, fault: Fault) returns (r: Result<(), HdError>)
      modifies this
      ensures var failure := FirstFailure(fault, CatalogDeleteAt(tbl), CatalogDeleteRefusal(tbl, CatalogDeleteAt(tbl)), 5);
              && (failure.None? ==> r == Ok(()) && State() == AfterDropTable(old(State()), tbl))
              && (failure.Some? ==> r == Err(DropTableError(org, db, tbl, failure.value)) && State() == old(State()))
    {
      var saved := State();
      var err := Execute(fault, 0, None);                       // BEGIN TRANSACTION;
      if err.None? {
        err := Execute(fault, 1, None);                         // DROP TABLE IF EXISTS
        if err.None? { physical := physical - {tbl}; }
      }
      if err.None? {
        err := Execute(fault, 2, CatalogDeleteRefusal(tbl, 2));  // DELETE FROM hd_tables WHERE id = tbl
        if err.None? { tables := tables - {tbl}; }
      }
      if err.None? {
        err := Execute(fault, 3, CatalogDeleteRefusal(tbl, 3));  // DELETE FROM hd_fields WHERE tbl = tbl
        if err.None? { fields := Filter(fields, (f: FieldRow) => f.tbl != tbl); }
      }
      if err.None? { err := Execute(fault, 4, None); }          // COMMIT;
      if err.Some? {
        Rollback(saved);
        r := Err(DropTableError(org, db, tbl, err.value));
      } else {
        r := Ok(());
      }
    }

    /** `add_column(org, db, tbl, column)`: returns True or raises. */
    method AddColumn(org: string, db: string, tbl: string, column: ColumnSpec, fault: Fault)
      returns (r: Result<bool, HdError>)
      modifies this
      ensures var failure := FirstFailure(fault, 1, AddRefusal(old(physical), tbl, column.slug), 5);
              && (failure.None? ==> tbl in old(physical) && r == Ok(true) && State() == AfterAddColumn(old(State()), tbl, column))
              && (failure.Some? ==> r == Err(ColumnError("Error adding column: ", org, db, tbl, column.slug, failure.value))
                                    && State() == old(State()))
    {
      var saved := State();
      var err := Execute(fault, 0, None);                       // BEGIN TRANSACTION;
      if err.None? {
        err := Execute(fault, 1, AddRefusal(physical, tbl, column.slug));  // ALTER TABLE ... ADD COLUMN
        if err.None? { physical := physical[tbl := physical[tbl] + [column.slug]]; }
      }
      if err.None? {
        err := Execute(fault, 2, None);                         // UPDATE hd_tables SET ncol = ncol + 1
        if err.None? { tables := ShiftNcol(tables, tbl, 1); }
      }
      if err.None? {
        err := Execute(fault, 3, None);                         // INSERT INTO hd_fields VALUES ...
        if err.None? { fields := fields + [FieldRow(column.fldId, column.slug, column.headerName, tbl, column.typ)]; }
      }
      if err.None? { err := Execute(fault, 4, None); }          // COMMIT;
      if err.Some? {
        Rollback(saved);
        r := Err(ColumnError("Error adding column: ", org, db, tbl, column.slug, err.value));
      } else {
        r := Ok(true);
      }
    }

    /** `delete_column(org, db, tbl, column)`: returns True or raises. */
    method DeleteColumn(org: string, db: string, tbl: string, column: ColumnSpec, fault: Fault)
      returns (r: Result<bool, HdError>)
      modifies this
      ensures var failure := FirstFailure(fault, 1, DropRefusal(old(physical), tbl, column.slug), 5);
              && (failure.None? ==> tbl in old(physical) && r == Ok(true)
                                    && State() == AfterDeleteColumn(old(State()), tbl, column.slug, column.fldId))
              && (failure.Some? ==> r == Err(ColumnError("Error deleting column: ", org, db, tbl, column.slug, failure.value))
                                    && State() == old(State()))
    {
      var columnName := column.slug;
      var columnId := column.fldId;
      var saved := State();
      var err := Execute(fault, 0, None);                       // BEGIN TRANSACTION;
      if err.None? {
        err := Execute(fault, 1, DropRefusal(physical, tbl, columnName));  // ALTER TABLE ... DROP COLUMN
        if err.None? { physical := physical[tbl := RemoveColumn(physical[tbl], columnName)]; }
      }
      if err.None? {
        err := Execute(fault, 2, None);                         // UPDATE hd_tables SET ncol = ncol - 1
        if err.None? { tables := ShiftNcol(tables, tbl, -1); }
      }
      if err.None? {
        err := Execute(fault, 3, None);                         // DELETE FROM hd_fields WHERE fld___id AND tbl
        if err.None? { fields := Filter(fields, (f: FieldRow) => !(f.fldId == columnId && f.tbl == tbl)); }
      }
      if err.None? { err := Execute(fault, 4, None); }          // COMMIT;
      if err.Some? {
        Rollback(saved);
        r := Err(ColumnError("Error deleting column: ", org, db, tbl, columnName, err.value));
      } else {
        r := Ok(true);
      }
    }

    /**
     * `get_table_metadata(org, db, tbl)`: the `hd_tables` row with that id, or a
     * QueryError when the query fails or finds no row. The not-found error is raised
     * inside the `try` but is not an engine error, so it is not rewrapped.
     */
    method GetTableMetadata(org: string, db: string, tbl: string, fault: Fault)
      returns (r: Result<TableMetadata, HdError>)
      ensures r.Ok? <==> !HitsIn(fault, 0, 1) && tbl in tables
      ensures r.Ok? ==> tbl in tables && r.value.tblName == tbl
                        && r.value.nrow == tables[tbl].nrow && r.value.ncol == tables[tbl].ncol
      ensures HitsIn(fault, 0, 1) ==>
                r == Err(NewQueryError("Error fetching table metadata: " + fault.error.text,
                                       Some(map["org" := org, "db" := db, "table" := tbl])))
      ensures !HitsIn(fault, 0, 1) && tbl !in tables ==>
                r == Err(NewQueryError("Table " + tbl + " not found", Some(map["org" := org, "db" := db, "table" := tbl])))
    {
      var details := map["org" := org, "db" := db, "table" := tbl];
      var err := Execute(fault, 0, None);                       // SELECT * FROM hd_tables WHERE id = tbl
      if err.Some? {
        r := Err(NewQueryError("Error fetching table metadata: " + err.value.text, Some(details)));
      } else if tbl !in tables {
        r := Err(NewQueryError("Table " + tbl + " not found", Some(details)));
      } else {
        var row := tables[tbl];
        r := Ok(TableMetadata(row.nrow, row.ncol, tbl));
      }
    }

    /** `update_field_metadata(org, db, fld___id, label, type)`: a single statement, no transaction. */
    method UpdateFieldMetadata(org: string, db: string, fldId: string, newLabel: string, newType: string, fault: Fault)
      returns (r: Result<(), HdError>)
      modifies this
      ensures physical == old(physical) && tables == old(tables) && database == old(database)
      ensures !HitsIn(fault, 0, 1) ==> r == Ok(()) && fields == UpdateFields(old(fields), fldId, newLabel, newType)
      ensures HitsIn(fault, 0, 1) ==> fields == old(fields) && r == Err(NewQueryError(
                "Error updating field metadata: " + fault.error.text,
                Some(map["org" := org, "db" := db, "field_id" := fldId, "new_label" := newLabel, "new_type" := newType])))
    {
      var err := Execute(fault, 0, None);                       // UPDATE hd_fields SET label, type
      if err.Some? {
        r := Err(NewQueryError("Error updating field metadata: " + err.value.text,
                 Some(map["org" := org, "db" := db, "field_id" := fldId, "new_label" := newLabel, "new_type" := newType])));
      } else {
        fields := UpdateFields(fields, fldId, newLabel, newType);
        r := Ok(());
      }
    }

    /**
     * `create_database(org, db, dataframes, names)`: the count check, then the
     * metadata row, then one `create_table` per name, each committed on its own.
     */
    method CreateDatabase(org: string, db: string, dataframes: seq<Frame>, names: seq<string>,
                          slugify: string -> string, entropies: seq<Entropy>, faults: seq<Fault>)
      returns (r: Result<(), DatabaseFailure>)
      requires |entropies| == |dataframes| && |faults| == |dataframes| + 1
      requires forall k :: 0 <= k < |dataframes| ==> Supplies(entropies[k], dataframes[k].columns)
      modifies this
      ensures |dataframes| != |names| ==> r == Err(CountMismatch(CountMismatchMessage)) && State() == old(State())
      ensures |dataframes| == |names| ==>
                var hd := CreateHdDatabaseOutcome(old(State()), org, db, |dataframes|, faults[0]);
                if hd.1.Err? then State() == old(State()) && r == Err(Failed(WrapDatabaseError(org, db, hd.1.error)))
                else
                  var all := CreateTablesFrom(hd.0, org, db, dataframes, names, slugify, entropies, faults, 0);
                  && State() == all.0
                  && r == (if all.1.Ok? then Ok(()) else Err(Failed(WrapDatabaseError(org, db, all.1.error))))
    {
      if |dataframes| != |names| {
        r := Err(CountMismatch(CountMismatchMessage));
        return;
      }
      var hd := CreateHdDatabase(org, db, |dataframes|, faults[0]);
      if hd.Err? {
        r := Err(Failed(WrapDatabaseError(org, db, hd.error)));
        return;
      }
      var all := CreateTables(org, db, dataframes, names, slugify, entropies, faults);
      r := if all.Ok? then Ok(()) else Err(Failed(WrapDatabaseError(org, db, all.error)));
    }

    /** The loop of `create_database`: one `create_table` per name, stopping at the first failure. */
    method CreateTables(org: string, db: string, dataframes: seq<Frame>, names: seq<string>,
                        slugify: string -> string, entropies: seq<Entropy>, faults: seq<Fault>)
      returns (r: Result<(), HdError>)
      requires Supplied(dataframes, names, entropies, faults)
      modifies this
      ensures var all := CreateTablesFrom(old(State()), org, db, dataframes, names, slugify, entropies, faults, 0);
              State() == all.0 && r == all.1
    {
      ghost var all := CreateTablesFrom(State(), org, db, dataframes, names, slugify, entropies, faults, 0);
      var i := 0;
      while i < |names|
        invariant 0 <= i <= |names|
        invariant CreateTablesFrom(State(), org, db, dataframes, names, slugify, entropies, faults, i) == all
      {
        var t := CreateTable(org, db, names[i], dataframes[i], slugify, entropies[i], faults[i + 1]);
        if t.Err? {
          return t;
        }
        i := i + 1;
      }
      r := Ok(());
    }
  }
}
