/** The example program of the repository, as concrete scenarios: one
    table of four columns with key clause "tbl", inside database "test". */
module Demo {
  import opened Wrappers
  import opened Errors
  import opened Strings
  import opened Keywords
  import opened Builder
  import Tables
  import Databases
  import Seqs

  const ColumnA := Tables.Column("columnA", "TINYINT UNSIGNED", Some(true), Some("5"), None)
  const ColumnB := Tables.Column("columnB", "TIMESTAMP", None, None, None)
  const ColumnC := Tables.Column("columnC", "ENUM('a', 'b')", Some(true), None, None)
  const ColumnD := Tables.Column("columnD", "MEDIUMBLOB", None, None, None)

  const DemoColumns: seq<Tables.Column> := [ColumnA, ColumnB, ColumnC, ColumnD]

  const DemoTable: Tables.Table := Tables.Table("tableName", DemoColumns, "tbl", None)

  const DemoDb: Databases.Database := Databases.Database("test", [DemoTable])

  /** The demo's declarations pass both uniqueness checks. */
  lemma DemoConstructs()
    ensures Tables.NewTable("tableName", DemoColumns, "tbl", None) == Success(DemoTable)
    ensures Databases.NewDatabase("test", [DemoTable]) == Success(DemoDb)
  {
    var names := Tables.ColumnNames(DemoColumns);
    assert names == ["columnA", "columnB", "columnC", "columnD"];
    assert Databases.TableNames([DemoTable]) == ["tableName"];
  }

  /** Two columns named alike are refused. */
  lemma DuplicateColumnRefused(c: Tables.Column)
    ensures Tables.NewTable("t", [c, c], "", None) == Failure(DuplicateColumn)
  {
    assert Tables.ColumnNames([c, c])[0] == Tables.ColumnNames([c, c])[1];
  }

  /** The column list of the demo's `CREATE TABLE`: the columns declared
      `notNull: true` carry no `NOT NULL`. */
  const DemoColumnList: string :=
    "`columnA` TINYINT UNSIGNED DEFAULT 5" + " , " + "`columnB` TIMESTAMP" + " , "
    + "`columnC` ENUM('a', 'b')" + " , " + "`columnD` MEDIUMBLOB"

  /** `table.create(true)`: the key clause trails the closing parenthesis. */
  lemma DemoTableCreate(reg: Registry)
    requires Covers(reg)
    ensures Tables.Create(reg, DemoTable, true)
         == Success("CREATE TABLE IF NOT EXISTS `tableName` ( " + DemoColumnList + " ) tbl")
  {
    assert Tables.CreateKeywords(true) == {"CREATE", "TABLE", "IF", "NOT", "EXISTS"};
    DemoCreateSql();
  }

  lemma DemoCreateSql()
    ensures Tables.CreateSql(DemoTable, true)
         == "CREATE TABLE IF NOT EXISTS `tableName` ( " + DemoColumnList + " ) tbl"
  {
    DemoColumnsJoin();
    CreateSqlIfNotExists(DemoTable);
    DemoHead();
    SqlShape("CREATE TABLE IF NOT EXISTS `tableName` ( ", DemoColumnList);
  }

  lemma DemoHead()
    ensures "CREATE TABLE IF NOT EXISTS " + Quote(DemoTable.tableName) + " ( "
         == "CREATE TABLE IF NOT EXISTS `tableName` ( "
  {
  }

  lemma SqlShape(head: string, j: string)
    ensures head + j + " ) " + "tbl" == head + j + " ) tbl"
  {
  }

  /** A table with columns, created `IF NOT EXISTS`. */
  lemma CreateSqlIfNotExists(t: Tables.Table)
    requires |t.columns| > 0
    ensures Tables.CreateSql(t, true)
         == "CREATE TABLE IF NOT EXISTS " + Quote(t.tableName) + " ( "
            + Join(Tables.ColumnTexts(t.columns), " , ") + " ) " + t.key
  {
    CreateShape(Quote(t.tableName), Join(Tables.ColumnTexts(t.columns), " , "), t.key);
  }

  /** The pieces of `CreateSql` for a table with columns, regrouped. */
  lemma CreateShape(q: string, j: string, k: string)
    ensures "CREATE TABLE " + "IF NOT EXISTS " + q + " ( " + (j + " ") + ") " + k
         == "CREATE TABLE IF NOT EXISTS " + q + " ( " + j + " ) " + k
  {
    assert "CREATE TABLE " + "IF NOT EXISTS " == "CREATE TABLE IF NOT EXISTS ";
    assert " " + ") " == " ) ";
    Regroup("CREATE TABLE ", "IF NOT EXISTS ", q, " ( ", j, " ", ") ", k);
  }

  lemma Regroup(a: string, b: string, q: string, c: string, j: string, d: string, e: string, k: string)
    ensures a + b + q + c + (j + d) + e + k == (a + b) + q + c + j + (d + e) + k
  {
  }

  lemma DemoColumnsJoin()
    ensures Join(Tables.ColumnTexts(DemoColumns), " , ") == DemoColumnList
  {
    var texts := Tables.ColumnTexts(DemoColumns);
    DemoColumnTexts();
    JoinFour(texts, " , ");
  }

  lemma DemoColumnTexts()
    ensures Tables.ColumnTexts(DemoColumns)
         == ["`columnA` TINYINT UNSIGNED DEFAULT 5", "`columnB` TIMESTAMP",
             "`columnC` ENUM('a', 'b')", "`columnD` MEDIUMBLOB"]
  {
    ColumnAText();
    PlainColumnText(ColumnB);
    PlainColumnText(ColumnC);
    PlainColumnText(ColumnD);
    PlainTexts();
  }

  lemma PlainTexts()
    ensures Quote("columnB") + " " + "TIMESTAMP" == "`columnB` TIMESTAMP"
    ensures Quote("columnC") + " " + "ENUM('a', 'b')" == "`columnC` ENUM('a', 'b')"
    ensures Quote("columnD") + " " + "MEDIUMBLOB" == "`columnD` MEDIUMBLOB"
  {
    PlainB();
    PlainC();
    PlainD();
  }

  lemma PlainB()
    ensures Quote("columnB") + " " + "TIMESTAMP" == "`columnB` TIMESTAMP"
  {
    assert Quote("columnB") == "`columnB`";
  }

  lemma PlainC()
    ensures Quote("columnC") + " " + "ENUM('a', 'b')" == "`columnC` ENUM('a', 'b')"
  {
    assert Quote("columnC") == "`columnC`";
  }

  lemma PlainD()
    ensures Quote("columnD") + " " + "MEDIUMBLOB" == "`columnD` MEDIUMBLOB"
  {
    assert Quote("columnD") == "`columnD`";
  }

  lemma ColumnAText()
    ensures PartText(Tables.ColumnPart(ColumnA)) == "`columnA` TINYINT UNSIGNED DEFAULT 5"
  {
    Tables.ColumnText(ColumnA);
    ColumnATextPieces();
  }

  lemma ColumnATextPieces()
    ensures Quote("columnA") + " " + "TINYINT UNSIGNED" + "" + (" DEFAULT " + "5")
         == "`columnA` TINYINT UNSIGNED DEFAULT 5"
  {
    QuoteColumnA();
    assert " DEFAULT " + "5" == " DEFAULT 5";
    ColumnAHead();
    ColumnAWhole();
  }

  lemma QuoteColumnA()
    ensures Quote("columnA") == "`columnA`"
  {
  }

  lemma ColumnAHead()
    ensures "`columnA`" + " " + "TINYINT UNSIGNED" + "" == "`columnA` TINYINT UNSIGNED"
  {
  }

  lemma ColumnAWhole()
    ensures "`columnA` TINYINT UNSIGNED" + " DEFAULT 5" == "`columnA` TINYINT UNSIGNED DEFAULT 5"
  {
  }

  /** A column without override, `NOT NULL` or default shows its quoted
      name and its type; `notNull: true` adds nothing. */
  lemma PlainColumnText(c: Tables.Column)
    requires c.raw.None? && c.default.None? && c.notNull != Some(false)
    ensures PartText(Tables.ColumnPart(c)) == Quote(c.name) + " " + c.typ
  {
    Tables.ColumnText(c);
  }

  /** `db.create(true)`. */
  lemma DemoDatabaseCreate(reg: Registry)
    requires Covers(reg)
    ensures Databases.Create(reg, DemoDb, true) == Success("CREATE DATABASE IF NOT EXISTS `test`")
  {
    assert Seqs.Elems(Databases.CreateWords(true)) == {"CREATE", "DATABASE", "IF", "NOT", "EXISTS"};
    DemoDatabaseCreateText();
  }

  lemma DemoDatabaseCreateText()
    ensures "CREATE DATABASE " + "IF NOT EXISTS " + Quote("test") == "CREATE DATABASE IF NOT EXISTS `test`"
  {
  }

  /** `db.use()`. */
  lemma DemoDatabaseUse(reg: Registry)
    requires Covers(reg)
    ensures Databases.Use(reg, DemoDb) == Success("USE `test`")
  {
    assert "USE " + Quote("test") == "USE `test`";
  }

  /** `db.drop(true)`: no `DATABASE` keyword. */
  lemma DemoDatabaseDrop(reg: Registry)
    requires Covers(reg)
    ensures Databases.Drop(reg, DemoDb, true) == Success("DROP IF EXISTS `test`")
  {
    assert Seqs.Elems(Databases.DropWords(true)) == {"DROP", "IF", "EXISTS"};
    assert "DROP " + "IF EXISTS " + Quote("test") == "DROP IF EXISTS `test`";
  }

  /** `db.ensureTable("tableName")` is the table's `create(true)`, a missing
      name is refused with its name in the error, and `ensureTables` maps. */
  lemma DemoEnsure(reg: Registry)
    requires Covers(reg)
    ensures Databases.EnsureTable(reg, DemoDb, "tableName") == Tables.Create(reg, DemoTable, true)
    ensures Databases.EnsureTable(reg, DemoDb, "missing") == Failure(TableNotFound("missing"))
    ensures Message(Databases.EnsureTable(reg, DemoDb, "missing").error) == "No table with name `missing`"
    ensures Databases.EnsureTables(reg, DemoDb, ["tableName"]).Success?
    ensures Databases.EnsureTables(reg, DemoDb, ["tableName"]).value
         == [Tables.Create(reg, DemoTable, true).value]
  {
    DemoEnsureOwned(reg);
    DemoEnsureMissing(reg);
    DemoMissingMessage();
    DemoEnsureTables(reg);
  }

  lemma DemoTableNames()
    ensures Databases.TableNames(DemoDb.tables) == ["tableName"]
  {
  }

  lemma DemoEnsureOwned(reg: Registry)
    ensures Databases.EnsureTable(reg, DemoDb, "tableName") == Tables.Create(reg, DemoTable, true)
  {
    DemoTableNames();
    Databases.EnsureTableOwned(reg, DemoDb, 0);
  }

  lemma DemoEnsureMissing(reg: Registry)
    ensures Databases.EnsureTable(reg, DemoDb, "missing") == Failure(TableNotFound("missing"))
  {
    DemoTableNames();
    assert "missing" !in ["tableName"];
  }

  lemma DemoMissingMessage()
    ensures Message(TableNotFound("missing")) == "No table with name `missing`"
  {
  }

  lemma DemoEnsureTables(reg: Registry)
    requires Covers(reg)
    ensures Databases.EnsureTables(reg, DemoDb, ["tableName"]).Success?
    ensures Databases.EnsureTables(reg, DemoDb, ["tableName"]).value
         == [Tables.Create(reg, DemoTable, true).value]
  {
    DemoEnsureOwned(reg);
    assert Tables.CreateKeywords(true) <= Used;
    var r := Databases.EnsureTables(reg, DemoDb, ["tableName"]);
    assert Databases.EnsureTable(reg, DemoDb, ["tableName"][0]).Success?;
    assert |r.value| == 1 && r.value[0] == Tables.Create(reg, DemoTable, true).value;
  }
}
