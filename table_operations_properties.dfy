/**
 * What the table operations promise about the catalog: each keeps it consistent with
 * the schema, touches only the table it names, and either commits its whole effect or
 * leaves the catalog as it found it.
 */
module TableOperationsProperties {
  import opened Common
  import opened Exceptions
  import opened FieldHelpers
  import opened TableOperations

  // ---------------------------------------------------------------- create_table

  /** Field keys stay distinct after putting a row in front exactly when no later row has its key. */
  lemma DistinctKeysCons(a: FieldRow, s: seq<FieldRow>)
    ensures DistinctFieldKeys([a] + s) <==> DistinctFieldKeys(s) && forall y :: y in s && y.tbl == a.tbl ==> y.id != a.id
  {
    var r := [a] + s;
    if DistinctFieldKeys(r) {
      forall i, j | 0 <= i < j < |s| && s[i].tbl == s[j].tbl ensures s[i].id != s[j].id {
        assert s[i] == r[i + 1] && s[j] == r[j + 1];
      }
      forall y | y in s && y.tbl == a.tbl ensures y.id != a.id {
        var k :| 0 <= k < |s| && s[k] == y;
        assert r[0] == a && r[k + 1] == y;
      }
    }
    if DistinctFieldKeys(s) && forall y :: y in s && y.tbl == a.tbl ==> y.id != a.id {
      forall i, j | 0 <= i < j < |r| && r[i].tbl == r[j].tbl ensures r[i].id != r[j].id {
        assert r[j] == s[j - 1];
        if i > 0 {
          assert r[i] == s[i - 1];
        }
      }
    }
  }

  /** A generic list filter keeps distinct field keys distinct. */
  lemma {:induction false} FilterKeepsDistinctKeys(rows: seq<FieldRow>, keep: FieldRow -> bool)
    requires DistinctFieldKeys(rows)
    ensures DistinctFieldKeys(Filter(rows, keep))
    decreases |rows|
  {
    if rows != [] {
      var rest := rows[1..];
      assert rows == [rows[0]] + rest;
      DistinctKeysCons(rows[0], rest);
      FilterKeepsDistinctKeys(rest, keep);
      if keep(rows[0]) {
        DistinctKeysCons(rows[0], Filter(rest, keep));
      }
    }
  }

  /**
   * Committing a new table whose columns are distinct and are the metadata ids, in
   * order, keeps the catalog consistent: its field rows describe exactly its columns.
   */
  lemma AfterCreateKeepsConsistent(c: Catalog, tbl: string, cols: seq<string>, nrow: nat, meta: seq<FieldMetadata>)
    requires Consistent(c) && tbl !in c.physical && NoDuplicates(cols)
    requires |meta| == |cols| && forall i :: 0 <= i < |meta| ==> meta[i].id == cols[i]
    ensures Consistent(AfterCreateTable(c, tbl, cols, nrow, meta))
  {
    var d := AfterCreateTable(c, tbl, cols, nrow, meta);
    var added := FieldRowsFor(meta, tbl);
    var n := |c.fields|;
    assert d.fields == c.fields + added;
    forall x | x in d.fields ensures x.tbl in d.physical && x.id in d.physical[x.tbl] {
      if x in c.fields {
        assert x.tbl in c.physical && x.tbl != tbl;
      } else {
        var k :| 0 <= k < |added| && added[k] == x;
        assert x.id == cols[k];
      }
    }
    assert forall i :: 0 <= i < n ==> d.fields[i] == c.fields[i] && c.fields[i] in c.fields;
    assert forall k :: n <= k < |d.fields| ==> d.fields[k] == added[k - n];
    forall i, j | 0 <= i < j < |d.fields| && d.fields[i].tbl == d.fields[j].tbl
      ensures d.fields[i].id != d.fields[j].id
    {
      if j < n {
        assert d.fields[j] == c.fields[j];
      } else if n <= i {
        assert d.fields[i].id == cols[i - n];
      }
    }
    forall t, col | t in d.physical && col in d.physical[t] ensures Described(d.fields, t, col) {
      if t == tbl {
        var k :| 0 <= k < |cols| && cols[k] == col;
        assert added[k] in d.fields;
      } else {
        var x :| x in c.fields && x.tbl == t && x.id == col;
        assert x in d.fields;
      }
    }
  }

  /** `create_table` keeps the catalog consistent, whether it commits or rolls back. */
  lemma CreateTableKeepsConsistent(c: Catalog, org: string, db: string, tbl: string, df: Frame,
                                   slugify: string -> string, entropy: Entropy, fault: Fault)
    requires Consistent(c) && Supplies(entropy, df.columns)
    ensures Consistent(CreateTableOutcome(c, org, db, tbl, df, slugify, entropy, fault).0)
  {
    var meta := GenerateFieldMetadata(df.columns, slugify, entropy);
    var cols := PhysicalColumns(df.columns, meta);
    var out := CreateTableOutcome(c, org, db, tbl, df, slugify, entropy, fault);
    if out.1.Ok? {
      assert CreateRefusal(c.physical, tbl, cols).None?;
      DuplicateLabelsCollide(df.columns, meta);
      MetadataEntries(df.columns, slugify, entropy);
      RenamedColumnsAreIds(df.columns, meta);
      AfterCreateKeepsConsistent(c, tbl, cols, |df.rows|, meta);
    }
  }

  /**
   * For distinct column labels, `create_table` commits exactly when no statement fails,
   * the table does not exist yet and the generated ids are distinct; what it commits
   * is the table with the generated ids as its columns, in input order, and its metadata.
   */
  lemma CreateTableEffect(c: Catalog, org: string, db: string, tbl: string, df: Frame,
                          slugify: string -> string, entropy: Entropy, fault: Fault)
    requires Supplies(entropy, df.columns) && NoDuplicates(df.columns)
    ensures var meta := GenerateFieldMetadata(df.columns, slugify, entropy);
            var out := CreateTableOutcome(c, org, db, tbl, df, slugify, entropy, fault);
            && (out.1.Ok? <==> !HitsIn(fault, 0, |df.columns| + 8) && df.columns != [] && tbl !in c.physical
                               && tbl !in CatalogTables
                               && NoDuplicates(Ids(meta)))
            && (out.1.Ok? ==> out.0 == AfterCreateTable(c, tbl, Ids(meta), |df.rows|, meta))
  {
    var meta := GenerateFieldMetadata(df.columns, slugify, entropy);
    MetadataEntries(df.columns, slugify, entropy);
    RenamedColumnsAreIds(df.columns, meta);
    assert PhysicalColumns(df.columns, meta) == Ids(meta);
  }

  /**
   * What a committed `create_table` adds: the physical table with the given columns,
   * one `hd_tables` row `{tbl, tbl, nrow, ncol}` and, after the existing rows, one
   * `hd_fields` row per metadata entry in order, each with the table's name and type
   * 'Txt'. Every other table and the database row are untouched.
   */
  lemma CreateTableLayout(c: Catalog, tbl: string, cols: seq<string>, nrow: nat, meta: seq<FieldMetadata>)
    ensures var d := AfterCreateTable(c, tbl, cols, nrow, meta);
            && d.physical[tbl] == cols
            && d.tables[tbl] == TableRow(tbl, nrow, |cols|)
            && d.database == c.database
            && (forall t :: t != tbl ==> (t in d.physical <==> t in c.physical) && (t in d.tables <==> t in c.tables))
            && (forall t :: t != tbl && t in c.physical ==> d.physical[t] == c.physical[t])
            && (forall t :: t != tbl && t in c.tables ==> d.tables[t] == c.tables[t])
    ensures var d := AfterCreateTable(c, tbl, cols, nrow, meta);
            && |d.fields| == |c.fields| + |meta|
            && d.fields[..|c.fields|] == c.fields
            && forall i :: 0 <= i < |meta| ==>
                 d.fields[|c.fields| + i] == FieldRow(meta[i].fldId, meta[i].id, meta[i].displayLabel, tbl, "Txt")
  {
    var d := AfterCreateTable(c, tbl, cols, nrow, meta);
    assert d.fields == c.fields + FieldRowsFor(meta, tbl);
    forall i | 0 <= i < |meta|
      ensures d.fields[|c.fields| + i] == FieldRow(meta[i].fldId, meta[i].id, meta[i].displayLabel, tbl, "Txt")
    {
      assert d.fields[|c.fields| + i] == FieldRowsFor(meta, tbl)[i];
    }
  }

  /** The error `create_table` raises: TableExistsError for a catalog conflict, QueryError otherwise. */
  lemma CreateTableErrorShape(org: string, db: string, tbl: string, e: EngineError)
    ensures var err := CreateTableError(org, db, tbl, e);
            e.CatalogException? ==>
              err.kind == TableExistsError
              && err.message == "Table Error: Table '" + tbl + "' already exists"
              && "table_name" in err.details && err.details["table_name"] == tbl
              && "error" in err.details && err.details["error"] == e.text
    ensures var err := CreateTableError(org, db, tbl, e);
            e.OtherError? ==>
              err.kind == QueryError
              && err.message == "Query Error: " + "Error creating table: " + e.text
              && err.details == map["table" := tbl, "org" := org, "db" := db]
  {
    var details := map["table" := tbl, "org" := org, "db" := db];
    assert "table" in details && OrEmpty(Some(details)) == details;
    assert "query" !in details by { assert "query"[0] == 'q'; }
    var errDetails := map["error" := e.text, "org" := org, "db" := db];
    assert "error" in errDetails && OrEmpty(Some(errDetails)) == errDetails;
    assert "error" != "table_name" by { assert "error"[0] == 'e'; }
  }

  /**
   * A failed `create_table` leaves the catalog as it was; asking for a table that
   * exists, or for one of the catalog tables, with at least one column, always fails
   * with TableExistsError unless an earlier statement failed (a dataset without columns
   * fails to parse first).
   */
  lemma CreateTableFailure(c: Catalog, org: string, db: string, tbl: string, df: Frame,
                           slugify: string -> string, entropy: Entropy, fault: Fault)
    requires Supplies(entropy, df.columns)
    ensures var out := CreateTableOutcome(c, org, db, tbl, df, slugify, entropy, fault);
            out.1.Err? ==> out.0 == c && (out.1.error.kind == TableExistsError || out.1.error.kind == QueryError)
    ensures var out := CreateTableOutcome(c, org, db, tbl, df, slugify, entropy, fault);
            df.columns != [] && (tbl in c.physical || tbl in CatalogTables) && !HitsIn(fault, 0, 2) ==>
              out.0 == c && out.1.Err? && out.1.error.kind == TableExistsError
              && out.1.error.message == "Table Error: Table '" + tbl + "' already exists"
  {
    var meta := GenerateFieldMetadata(df.columns, slugify, entropy);
    var cols := PhysicalColumns(df.columns, meta);
    var failure := FirstFailure(fault, 1, CreateRefusal(c.physical, tbl, cols), CreateTableStatements(|meta|));
    if failure.Some? {
      CreateTableErrorShape(org, db, tbl, failure.value);
    }
  }

  /**
   * Retrying a failed `create_table` from the catalog it rolled back to fails again
   * with the same error: the outcome depends only on the catalog and the inputs.
   */
  lemma CreateTableFailureRepeats(c: Catalog, org: string, db: string, tbl: string, df: Frame,
                                  slugify: string -> string, entropy: Entropy, fault: Fault)
    requires Supplies(entropy, df.columns)
    ensures var out := CreateTableOutcome(c, org, db, tbl, df, slugify, entropy, fault);
            out.1.Err? ==>
              var again := CreateTableOutcome(out.0, org, db, tbl, df, slugify, entropy, fault);
              again.0 == out.0 && again.1 == out.1
  {
    CreateTableFailure(c, org, db, tbl, df, slugify, entropy, fault);
  }

  /**
   * Two columns with the same label are renamed to the same id, so the engine refuses
   * the `CREATE TABLE` with a catalog error, which `create_table` reports as
   * TableExistsError although the table does not exist.
   */
  lemma DuplicateLabelsReportedAsExisting(c: Catalog, org: string, db: string, tbl: string, df: Frame,
                                          slugify: string -> string, entropy: Entropy, fault: Fault)
    requires Supplies(entropy, df.columns) && !NoDuplicates(df.columns) && !HitsIn(fault, 0, 2)
    ensures var out := CreateTableOutcome(c, org, db, tbl, df, slugify, entropy, fault);
            out.0 == c && out.1.Err? && out.1.error.kind == TableExistsError
  {
    var meta := GenerateFieldMetadata(df.columns, slugify, entropy);
    DuplicateLabelsCollide(df.columns, meta);
  }

  // ---------------------------------------------------------------- drop_table

  lemma DropTableKeepsConsistent(c: Catalog, tbl: string)
    requires Consistent(c)
    ensures Consistent(AfterDropTable(c, tbl))
  {
    var d := AfterDropTable(c, tbl);
    FilterKeepsDistinctKeys(c.fields, (f: FieldRow) => f.tbl != tbl);
    forall x | x in d.fields ensures x.tbl in d.physical && x.id in d.physical[x.tbl] {
      assert x in c.fields && x.tbl != tbl;
    }
    forall t, col | t in d.physical && col in d.physical[t] ensures Described(d.fields, t, col) {
      var x :| x in c.fields && x.tbl == t && x.id == col;
      assert x in d.fields;
    }
  }

  /**
   * `drop_table` removes the physical table, its `hd_tables` row and all of its
   * `hd_fields` rows, and leaves every other table and its rows as they were.
   */
  lemma DropTableEffect(c: Catalog, tbl: string)
    ensures var d := AfterDropTable(c, tbl);
            && tbl !in d.physical && tbl !in d.tables
            && (forall x :: x in d.fields ==> x.tbl != tbl)
            && d.database == c.database
    ensures var d := AfterDropTable(c, tbl);
            forall t :: t != tbl ==>
              && (t in d.physical <==> t in c.physical) && (t in d.physical ==> d.physical[t] == c.physical[t])
              && (t in d.tables <==> t in c.tables) && (t in d.tables ==> d.tables[t] == c.tables[t])
    ensures var d := AfterDropTable(c, tbl);
            forall x: FieldRow :: x.tbl != tbl ==> (x in d.fields <==> x in c.fields)
  {
  }

  /**
   * `drop_table` of a user table commits exactly when no statement fails, and then fails
   * with the injected error. Given the name of a catalog table it never commits: the
   * metadata `DELETE` that reads the dropped catalog table fails with a catalog error
   * unless an earlier statement failed first.
   */
  lemma DropTableCommits(tbl: string, fault: Fault)
    ensures var failure := FirstFailure(fault, CatalogDeleteAt(tbl), CatalogDeleteRefusal(tbl, CatalogDeleteAt(tbl)), 5);
            && (tbl !in CatalogTables ==> (failure.None? <==> !HitsIn(fault, 0, 5)) && (failure.Some? ==> failure.value == fault.error))
            && (tbl in CatalogTables ==> failure.Some?)
            && (tbl in CatalogTables && !HitsIn(fault, 0, CatalogDeleteAt(tbl) + 1) ==> failure.value.CatalogException?)
  {
  }

  // ---------------------------------------------------------------- add_column / delete_column

  /** A committed `add_column` keeps the catalog consistent and raises the table's `ncol` by one. */
  lemma AddColumnKeepsConsistent(c: Catalog, tbl: string, column: ColumnSpec)
    requires Consistent(c) && tbl in c.physical && column.slug !in c.physical[tbl]
    ensures Consistent(AfterAddColumn(c, tbl, column))
    ensures AfterAddColumn(c, tbl, column).tables[tbl].ncol == c.tables[tbl].ncol + 1
  {
    var d := AfterAddColumn(c, tbl, column);
    var cols := c.physical[tbl] + [column.slug];
    var row := FieldRow(column.fldId, column.slug, column.headerName, tbl, column.typ);
    var n := |c.fields|;
    assert d.fields == c.fields + [row];
    assert NoDuplicates(cols) by {
      forall i, j | 0 <= i < j < |cols| ensures cols[i] != cols[j] {
        if j == |cols| - 1 {
          assert cols[i] == c.physical[tbl][i];
          assert cols[i] in c.physical[tbl];
        }
      }
    }
    forall x | x in d.fields ensures x.tbl in d.physical && x.id in d.physical[x.tbl] {
      if x in c.fields && x.tbl == tbl {
        assert x.id in c.physical[tbl];
      }
    }
    forall i, j | 0 <= i < j < |d.fields| && d.fields[i].tbl == d.fields[j].tbl
      ensures d.fields[i].id != d.fields[j].id
    {
      if j < n {
        assert d.fields[i] == c.fields[i] && d.fields[j] == c.fields[j];
      } else {
        assert d.fields[i] == c.fields[i] && c.fields[i] in c.fields;
        assert d.fields[j] == row;
      }
    }
    forall t, col | t in d.physical && col in d.physical[t] ensures Described(d.fields, t, col) {
      if t == tbl && col == column.slug {
        assert row in d.fields;
      } else {
        assert col in c.physical[t];
        var x :| x in c.fields && x.tbl == t && x.id == col;
        assert x in d.fields;
      }
    }
  }

  /** The `column` dictionary agrees with the catalog: its field id is the one of the column it names, and only of that one. */
  predicate ColumnMatchesField(fields: seq<FieldRow>, tbl: string, slug: string, fldId: string) {
    forall x :: x in fields && x.tbl == tbl ==> (x.fldId == fldId <==> x.id == slug)
  }

  /**
   * A committed `delete_column` whose dictionary agrees with the catalog keeps the catalog
   * consistent, lowers `ncol` by one and removes the column and its field row.
   */
  lemma DeleteColumnKeepsConsistent(c: Catalog, tbl: string, slug: string, fldId: string)
    requires Consistent(c) && tbl in c.physical && slug in c.physical[tbl]
    requires ColumnMatchesField(c.fields, tbl, slug, fldId)
    ensures Consistent(AfterDeleteColumn(c, tbl, slug, fldId))
    ensures AfterDeleteColumn(c, tbl, slug, fldId).tables[tbl].ncol == c.tables[tbl].ncol - 1
    ensures slug !in AfterDeleteColumn(c, tbl, slug, fldId).physical[tbl]
    ensures forall x :: x in AfterDeleteColumn(c, tbl, slug, fldId).fields ==> !(x.fldId == fldId && x.tbl == tbl)
  {
    var d := AfterDeleteColumn(c, tbl, slug, fldId);
    RemoveColumnKeepsDistinct(c.physical[tbl], slug);
    FilterKeepsDistinctKeys(c.fields, (f: FieldRow) => !(f.fldId == fldId && f.tbl == tbl));
    forall x | x in d.fields ensures x.tbl in d.physical && x.id in d.physical[x.tbl] {
      assert x in c.fields && !(x.fldId == fldId && x.tbl == tbl);
      if x.tbl == tbl {
        assert x.id != slug && x.id in c.physical[tbl];
      }
    }
    forall t, col | t in d.physical && col in d.physical[t] ensures Described(d.fields, t, col) {
      if t == tbl {
        assert col != slug && col in c.physical[tbl];
      }
      var x :| x in c.fields && x.tbl == t && x.id == col;
      assert x in d.fields;
    }
  }

  /**
   * `delete_column` drops the column by its slug but deletes field rows by field id:
   * when the dictionary's field id is not the one of the column's row, that row stays
   * behind, describing a column that no longer exists.
   */
  lemma DeleteColumnMismatchOrphans(c: Catalog, tbl: string, slug: string, fldId: string, x: FieldRow)
    requires Consistent(c) && tbl in c.physical && slug in c.physical[tbl]
    requires x in c.fields && x.tbl == tbl && x.id == slug && x.fldId != fldId
    ensures x in AfterDeleteColumn(c, tbl, slug, fldId).fields
    ensures !Consistent(AfterDeleteColumn(c, tbl, slug, fldId))
  {
    RemoveColumnKeepsDistinct(c.physical[tbl], slug);
    var d := AfterDeleteColumn(c, tbl, slug, fldId);
    assert x in d.fields;
  }

  /**
   * Adding a column and deleting it again restores the schema and `ncol`; when no row
   * of that table already had the column's field id, the whole catalog is restored.
   */
  lemma AddThenDeleteRestores(c: Catalog, tbl: string, column: ColumnSpec)
    requires Consistent(c) && tbl in c.physical && column.slug !in c.physical[tbl]
    ensures var d := AfterDeleteColumn(AfterAddColumn(c, tbl, column), tbl, column.slug, column.fldId);
            d.physical == c.physical && d.tables == c.tables && d.database == c.database
    ensures (forall i :: 0 <= i < |c.fields| ==> !(c.fields[i].fldId == column.fldId && c.fields[i].tbl == tbl)) ==>
              AfterDeleteColumn(AfterAddColumn(c, tbl, column), tbl, column.slug, column.fldId) == c
  {
    var a := AfterAddColumn(c, tbl, column);
    var d := AfterDeleteColumn(a, tbl, column.slug, column.fldId);
    RemoveAppended(c.physical[tbl], column.slug);
    assert d.physical == c.physical;
    assert d.tables == c.tables;
    var keep := (f: FieldRow) => !(f.fldId == column.fldId && f.tbl == tbl);
    var added := FieldRow(column.fldId, column.slug, column.headerName, tbl, column.typ);
    FilterAppend(c.fields, added, keep);
    if forall i :: 0 <= i < |c.fields| ==> !(c.fields[i].fldId == column.fldId && c.fields[i].tbl == tbl) {
      FilterAll(c.fields, keep);
      assert d.fields == c.fields;
    }
  }

  // ---------------------------------------------------------------- update_field_metadata

  /**
   * `update_field_metadata` changes only `label` and `type`, of exactly the rows with
   * that field id, in whatever table they are; applying it twice is applying it once.
   */
  lemma UpdateFieldsEffect(rows: seq<FieldRow>, fldId: string, newLabel: string, newType: string)
    ensures var r := UpdateFields(rows, fldId, newLabel, newType);
            |r| == |rows|
            && forall i :: 0 <= i < |rows| ==>
                 && r[i].fldId == rows[i].fldId && r[i].id == rows[i].id && r[i].tbl == rows[i].tbl
                 && (rows[i].fldId == fldId ==> r[i].fieldLabel == newLabel && r[i].typ == newType)
                 && (rows[i].fldId != fldId ==> r[i] == rows[i])
    ensures UpdateFields(UpdateFields(rows, fldId, newLabel, newType), fldId, newLabel, newType)
              == UpdateFields(rows, fldId, newLabel, newType)
  {
  }

  lemma UpdateFieldsKeepsConsistent(c: Catalog, fldId: string, newLabel: string, newType: string)
    requires Consistent(c)
    ensures Consistent(c.(fields := UpdateFields(c.fields, fldId, newLabel, newType)))
  {
    var u := UpdateFields(c.fields, fldId, newLabel, newType);
    forall x | x in u ensures x.tbl in c.physical && x.id in c.physical[x.tbl] {
      var i :| 0 <= i < |u| && u[i] == x;
      assert c.fields[i] in c.fields;
    }
    forall t, col | t in c.physical && col in c.physical[t] ensures Described(u, t, col) {
      var x :| x in c.fields && x.tbl == t && x.id == col;
      var i :| 0 <= i < |c.fields| && c.fields[i] == x;
      assert u[i] in u;
    }
  }

  // ---------------------------------------------------------------- get_table_metadata

  /** Reading a table's metadata right after creating it gives back its row and column counts. */
  lemma MetadataAfterCreate(c: Catalog, org: string, db: string, tbl: string, df: Frame,
                            slugify: string -> string, entropy: Entropy, fault: Fault)
    requires Supplies(entropy, df.columns)
    ensures var out := CreateTableOutcome(c, org, db, tbl, df, slugify, entropy, fault);
            out.1.Ok? ==> tbl in out.0.tables && out.0.tables[tbl] == TableRow(tbl, |df.rows|, |df.columns|)
  {
  }

  // ---------------------------------------------------------------- create_database

  /**
   * `_create_hd_database` records one row `{org__db, org, db, n}` unless a statement
   * fails or the row's table already exists; then nothing changes and a QueryError
   * without details is raised.
   */
  lemma HdDatabaseEffect(c: Catalog, org: string, db: string, n: nat, fault: Fault)
    ensures var out := CreateHdDatabaseOutcome(c, org, db, n, fault);
            out.1.Ok? <==> !HitsIn(fault, 0, 4) && c.database.None?
    ensures var out := CreateHdDatabaseOutcome(c, org, db, n, fault);
            out.1.Ok? ==> out.0 == c.(database := Some(DatabaseRow(org + "__" + db, org, db, n)))
    ensures var out := CreateHdDatabaseOutcome(c, org, db, n, fault);
            out.1.Err? ==> out.0 == c && out.1.error.kind == QueryError && out.1.error.details == map[]
  {
  }

  /** Whatever fails inside `create_database`, a table conflict included, surfaces as a QueryError naming org and db. */
  lemma DatabaseErrorsBecomeQueryErrors(org: string, db: string, inner: HdError)
    ensures var e := WrapDatabaseError(org, db, inner);
            e.kind == QueryError
            && e.message == "Query Error: " + "Error creating database: " + inner.message
            && e.details == map["org" := org, "db" := db]
  {
    var details := map["org" := org, "db" := db];
    assert "org" in details && OrEmpty(Some(details)) == details;
    assert "query" != "org" && "query" != "db" by { assert "query"[0] == 'q'; }
  }

  /** Creating a run of tables keeps the catalog consistent. */
  lemma {:induction false} CreateTablesKeepsConsistent(
    c: Catalog, org: string, db: string, dataframes: seq<Frame>, names: seq<string>,
    slugify: string -> string, entropies: seq<Entropy>, faults: seq<Fault>, i: nat)
    requires Consistent(c) && Supplied(dataframes, names, entropies, faults) && i <= |names|
    ensures Consistent(CreateTablesFrom(c, org, db, dataframes, names, slugify, entropies, faults, i).0)
    decreases |names| - i
  {
    if i < |names| {
      var step := CreateTableOutcome(c, org, db, names[i], dataframes[i], slugify, entropies[i], faults[i + 1]);
      CreateTableKeepsConsistent(c, org, db, names[i], dataframes[i], slugify, entropies[i], faults[i + 1]);
      if step.1.Ok? {
        CreateTablesKeepsConsistent(step.0, org, db, dataframes, names, slugify, entropies, faults, i + 1);
      }
    }
  }

  /** A committed `create_table` adds its table, which did not exist, and leaves the others' columns alone. */
  lemma CreateTableGrows(c: Catalog, org: string, db: string, tbl: string, df: Frame,
                         slugify: string -> string, entropy: Entropy, fault: Fault)
    requires Supplies(entropy, df.columns)
    ensures var out := CreateTableOutcome(c, org, db, tbl, df, slugify, entropy, fault);
            out.1.Ok? ==>
              && tbl !in c.physical && tbl in out.0.physical
              && forall t :: t in c.physical ==> t in out.0.physical && out.0.physical[t] == c.physical[t]
  {
    var meta := GenerateFieldMetadata(df.columns, slugify, entropy);
    var cols := PhysicalColumns(df.columns, meta);
    var failure := FirstFailure(fault, 1, CreateRefusal(c.physical, tbl, cols), CreateTableStatements(|meta|));
    if failure.None? {
      assert CreateRefusal(c.physical, tbl, cols).None?;
    }
  }

  /** Creating a run of tables never removes or alters a table that was already there. */
  lemma {:induction false} CreateTablesKeepsExisting(
    c: Catalog, org: string, db: string, dataframes: seq<Frame>, names: seq<string>,
    slugify: string -> string, entropies: seq<Entropy>, faults: seq<Fault>, i: nat)
    requires Supplied(dataframes, names, entropies, faults) && i <= |names|
    ensures var out := CreateTablesFrom(c, org, db, dataframes, names, slugify, entropies, faults, i);
            forall t :: t in c.physical ==> t in out.0.physical && out.0.physical[t] == c.physical[t]
    decreases |names| - i
  {
    if i < |names| {
      var step := CreateTableOutcome(c, org, db, names[i], dataframes[i], slugify, entropies[i], faults[i + 1]);
      CreateTableGrows(c, org, db, names[i], dataframes[i], slugify, entropies[i], faults[i + 1]);
      if step.1.Ok? {
        CreateTablesKeepsExisting(step.0, org, db, dataframes, names, slugify, entropies, faults, i + 1);
      }
    }
  }

  /** The index of the table whose creation fails, or `|names|` when none does. */
  function FailingTable(c: Catalog, org: string, db: string, dataframes: seq<Frame>, names: seq<string>,
                        slugify: string -> string, entropies: seq<Entropy>, faults: seq<Fault>, i: nat): nat
    requires Supplied(dataframes, names, entropies, faults) && i <= |names|
    decreases |names| - i, 1
  {
    if i == |names| then i
    else
      FailingAfter(CreateTableOutcome(c, org, db, names[i], dataframes[i], slugify, entropies[i], faults[i + 1]),
                   org, db, dataframes, names, slugify, entropies, faults, i)
  }

  function FailingAfter(step: (Catalog, Result<(), HdError>), org: string, db: string, dataframes: seq<Frame>,
                        names: seq<string>, slugify: string -> string, entropies: seq<Entropy>, faults: seq<Fault>, i: nat): nat
    requires Supplied(dataframes, names, entropies, faults) && i < |names|
    decreases |names| - i, 0
  {
    if step.1.Err? then i
    else FailingTable(step.0, org, db, dataframes, names, slugify, entropies, faults, i + 1)
  }

  /** The failing index lies in the range still to be created, or is `|names|`. */
  lemma {:induction false} FailingTableInRange(
    c: Catalog, org: string, db: string, dataframes: seq<Frame>, names: seq<string>,
    slugify: string -> string, entropies: seq<Entropy>, faults: seq<Fault>, i: nat)
    requires Supplied(dataframes, names, entropies, faults) && i <= |names|
    ensures i <= FailingTable(c, org, db, dataframes, names, slugify, entropies, faults, i) <= |names|
    decreases |names| - i
  {
    if i < |names| {
      var step := CreateTableOutcome(c, org, db, names[i], dataframes[i], slugify, entropies[i], faults[i + 1]);
      if step.1.Ok? {
        FailingTableInRange(step.0, org, db, dataframes, names, slugify, entropies, faults, i + 1);
      }
    }
  }

  /** A run fails exactly when some table's creation fails. */
  lemma {:induction false} CreateTablesFailsIff(
    c: Catalog, org: string, db: string, dataframes: seq<Frame>, names: seq<string>,
    slugify: string -> string, entropies: seq<Entropy>, faults: seq<Fault>, i: nat)
    requires Supplied(dataframes, names, entropies, faults) && i <= |names|
    ensures CreateTablesFrom(c, org, db, dataframes, names, slugify, entropies, faults, i).1.Err?
            <==> FailingTable(c, org, db, dataframes, names, slugify, entropies, faults, i) < |names|
    decreases |names| - i
  {
    if i < |names| {
      var step := CreateTableOutcome(c, org, db, names[i], dataframes[i], slugify, entropies[i], faults[i + 1]);
      if step.1.Ok? {
        CreateTablesFailsIff(step.0, org, db, dataframes, names, slugify, entropies, faults, i + 1);
      }
    }
  }

  /** The tables before the failing one are all created and stay so. */
  lemma {:induction false} CreateTablesCommitsBefore(
    c: Catalog, org: string, db: string, dataframes: seq<Frame>, names: seq<string>,
    slugify: string -> string, entropies: seq<Entropy>, faults: seq<Fault>, i: nat)
    requires Supplied(dataframes, names, entropies, faults) && i <= |names|
    ensures var out := CreateTablesFrom(c, org, db, dataframes, names, slugify, entropies, faults, i);
            var k := FailingTable(c, org, db, dataframes, names, slugify, entropies, faults, i);
            forall j :: i <= j < k && j < |names| ==> names[j] in out.0.physical
    decreases |names| - i
  {
    if i < |names| {
      var step := CreateTableOutcome(c, org, db, names[i], dataframes[i], slugify, entropies[i], faults[i + 1]);
      if step.1.Ok? {
        CommitsAfterSuccess(step.0, org, db, dataframes, names, slugify, entropies, faults, i);
        CreateTablesKeepsExisting(step.0, org, db, dataframes, names, slugify, entropies, faults, i + 1);
        CreateTableGrows(c, org, db, names[i], dataframes[i], slugify, entropies[i], faults[i + 1]);
      }
    }
  }

  /** After table `i` is created, the tables committed after it are in the final catalog. */
  lemma CommitsAfterSuccess(
    c: Catalog, org: string, db: string, dataframes: seq<Frame>, names: seq<string>,
    slugify: string -> string, entropies: seq<Entropy>, faults: seq<Fault>, i: nat)
    requires Supplied(dataframes, names, entropies, faults) && i < |names|
    ensures var out := CreateTablesFrom(c, org, db, dataframes, names, slugify, entropies, faults, i + 1);
            var k := FailingTable(c, org, db, dataframes, names, slugify, entropies, faults, i + 1);
            forall j :: i < j < k && j < |names| ==> names[j] in out.0.physical
    decreases |names| - i, 0
  {
    CreateTablesCommitsBefore(c, org, db, dataframes, names, slugify, entropies, faults, i + 1);
  }

  /**
   * A failure while creating the tables stops at some table `k`, and the tables
   * before it stay committed.
   */
  lemma CreateTablesFailureKeepsPrefix(
    c: Catalog, org: string, db: string, dataframes: seq<Frame>, names: seq<string>,
    slugify: string -> string, entropies: seq<Entropy>, faults: seq<Fault>, i: nat)
    requires Supplied(dataframes, names, entropies, faults) && i <= |names|
    ensures var out := CreateTablesFrom(c, org, db, dataframes, names, slugify, entropies, faults, i);
            var k := FailingTable(c, org, db, dataframes, names, slugify, entropies, faults, i);
            && i <= k <= |names|
            && (out.1.Err? <==> k < |names|)
            && (forall j :: i <= j < k ==> names[j] in out.0.physical)
  {
    FailingTableInRange(c, org, db, dataframes, names, slugify, entropies, faults, i);
    CreateTablesFailsIff(c, org, db, dataframes, names, slugify, entropies, faults, i);
    CreateTablesCommitsBefore(c, org, db, dataframes, names, slugify, entropies, faults, i);
  }

  /** When every creation commits, every named table exists afterwards. */
  lemma CreateTablesAllCreated(
    c: Catalog, org: string, db: string, dataframes: seq<Frame>, names: seq<string>,
    slugify: string -> string, entropies: seq<Entropy>, faults: seq<Fault>)
    requires Supplied(dataframes, names, entropies, faults)
    ensures var out := CreateTablesFrom(c, org, db, dataframes, names, slugify, entropies, faults, 0);
            out.1.Ok? ==> forall j :: 0 <= j < |names| ==> names[j] in out.0.physical
  {
    CreateTablesFailureKeepsPrefix(c, org, db, dataframes, names, slugify, entropies, faults, 0);
  }

  /**
   * The catalog a failed run leaves behind is the one the failing table's creation
   * started from and rolled back to, and the error is the one that creation raised.
   */
  lemma {:induction false} CreateTablesFailureRollsBackLast(
    c: Catalog, org: string, db: string, dataframes: seq<Frame>, names: seq<string>,
    slugify: string -> string, entropies: seq<Entropy>, faults: seq<Fault>, i: nat)
    requires Supplied(dataframes, names, entropies, faults) && i <= |names|
    ensures var out := CreateTablesFrom(c, org, db, dataframes, names, slugify, entropies, faults, i);
            var k := FailingTable(c, org, db, dataframes, names, slugify, entropies, faults, i);
            i <= k <= |names| &&
            (k < |names| ==>
               var last := CreateTableOutcome(out.0, org, db, names[k], dataframes[k], slugify, entropies[k], faults[k + 1]);
               last.0 == out.0 && last.1 == out.1)
    decreases |names| - i
  {
    if i < |names| {
      var step := CreateTableOutcome(c, org, db, names[i], dataframes[i], slugify, entropies[i], faults[i + 1]);
      if step.1.Ok? {
        CreateTablesFailureRollsBackLast(step.0, org, db, dataframes, names, slugify, entropies, faults, i + 1);
      } else {
        CreateTableFailureRepeats(c, org, db, names[i], dataframes[i], slugify, entropies[i], faults[i + 1]);
      }
    }
  }

}
