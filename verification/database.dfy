/** A database declaration: a name and an ordered list of tables with
    unique raw names, and the `CREATE DATABASE`, `USE`, `DROP` statements and
    table look-ups derived from them. */
module Databases {
  import opened Wrappers
  import opened Errors
  import opened Seqs
  import opened Strings
  import opened Keywords
  import opened Builder
  import Tables

  datatype Database = Database(dbName: string, tables: seq<Tables.Table>)

  function TableNames(tables: seq<Tables.Table>): (r: seq<string>)
    ensures |r| == |tables|
    ensures forall i :: 0 <= i < |tables| ==> r[i] == Tables.RawName(tables[i])
  {
    seq(|tables|, i requires 0 <= i < |tables| => Tables.RawName(tables[i]))
  }

  /** A database whose tables have pairwise different raw names. */
  predicate Valid(db: Database) {
    Distinct(TableNames(db.tables))
  }

  /** The constructor: it refuses a table list in which two tables share a
      raw name, and otherwise stores its arguments. */
  function NewDatabase(name: string, tables: seq<Tables.Table>): (r: Result<Database, Error>)
    ensures r.Success? <==> Distinct(TableNames(tables))
    ensures r.Success? ==> r.value == Database(name, tables) && Valid(r.value)
    ensures r.Failure? ==> r.error == DuplicateTable
  {
    DedupKeepsLengthIffDistinct(TableNames(tables));
    if |Dedup(TableNames(tables))| != |tables| then Failure(DuplicateTable)
    else Success(Database(name, tables))
  }

  /** A statement made of upper-case keywords followed by the quoted
      database name renders exactly when the registry holds the keywords. */
  lemma KeywordsThenNameAccepted(reg: Registry, words: seq<string>, name: string)
    requires forall i :: 0 <= i < |words| ==> IsUpper(words[i])
    ensures Build(reg, Query(KeywordParts(words) + [LiteralIdentifier(name)])).Success?
        <==> Elems(words) <= reg.Keys
  {
    KeywordPartsAccepted(reg, words);
    assert AllAccepted(reg, [LiteralIdentifier(name)]);
    AcceptedConcat(reg, KeywordParts(words), [LiteralIdentifier(name)]);
  }

  /** ... and it renders as the words, a space and the quoted name. */
  lemma KeywordsThenNameText(reg: Registry, words: seq<string>, name: string)
    requires |words| > 0
    requires AllAccepted(reg, KeywordParts(words))
    ensures Build(reg, Query(KeywordParts(words) + [LiteralIdentifier(name)]))
         == Success(Join(words, " ") + " " + Quote(name))
  {
    ThenIdentifier(reg, KeywordParts(words), name);
    TextsOfKeywords(words);
  }

  lemma TextsOfKeywords(words: seq<string>)
    ensures Texts(KeywordParts(words)) == words
  {
  }

  lemma ThenIdentifier(reg: Registry, a: seq<QueryPart>, name: string)
    requires |a| > 0 && AllAccepted(reg, a)
    ensures Build(reg, Query(a + [LiteralIdentifier(name)])) == Success(Join(Texts(a), " ") + " " + Quote(name))
  {
    var b := [LiteralIdentifier(name)];
    assert Texts(b) == [Quote(name)];
    assert AllAccepted(reg, b);
    AppendRenders(reg, Query(a), b);
  }

  lemma KeywordsThenNameRender(reg: Registry, words: seq<string>, name: string)
    requires |words| > 0
    requires forall i :: 0 <= i < |words| ==> IsUpper(words[i])
    ensures Build(reg, Query(KeywordParts(words) + [LiteralIdentifier(name)])).Success?
        <==> Elems(words) <= reg.Keys
    ensures Build(reg, Query(KeywordParts(words) + [LiteralIdentifier(name)])).Success? ==>
              Build(reg, Query(KeywordParts(words) + [LiteralIdentifier(name)])).value
              == Join(words, " ") + " " + Quote(name)
  {
    KeywordsThenNameAccepted(reg, words, name);
    KeywordPartsAccepted(reg, words);
    if AllAccepted(reg, KeywordParts(words)) {
      KeywordsThenNameText(reg, words, name);
    } else {
      AcceptedConcat(reg, KeywordParts(words), [LiteralIdentifier(name)]);
    }
  }

  /** The keywords of `CREATE DATABASE [IF NOT EXISTS]`. */
  function CreateWords(ifNotExists: bool): seq<string> {
    ["CREATE", "DATABASE"] + (if ifNotExists then ["IF", "NOT", "EXISTS"] else [])
  }

  /** `create(ifNotExists)`: `CREATE DATABASE [IF NOT EXISTS] `name``; it
      fails only when the registry lacks one of these keywords. */
  function Create(reg: Registry, db: Database, ifNotExists: bool): (r: Result<string, Error>)
    ensures r.Success? <==> Elems(CreateWords(ifNotExists)) <= reg.Keys
    ensures r.Success? ==>
              r.value == "CREATE DATABASE " + (if ifNotExists then "IF NOT EXISTS " else "") + Quote(db.dbName)
    ensures r.Failure? ==> r.error == InvalidKeyword
  {
    var words := CreateWords(ifNotExists);
    var q := Query([Keyword("CREATE"), Keyword("DATABASE")] + Tables.IfNotExists(ifNotExists)
                   + [LiteralIdentifier(db.dbName)]);
    assert q.parts == KeywordParts(words) + [LiteralIdentifier(db.dbName)];
    KeywordsThenNameRender(reg, words, db.dbName);
    CreateWordsJoin(ifNotExists);
    Build(reg, q)
  }

  lemma CreateWordsJoin(b: bool)
    ensures forall i :: 0 <= i < |CreateWords(b)| ==> IsUpper(CreateWords(b)[i])
    ensures Join(CreateWords(b), " ") + " " == "CREATE DATABASE " + (if b then "IF NOT EXISTS " else "")
  {
    UsedAreUpper();
    assert forall i :: 0 <= i < |CreateWords(b)| ==> CreateWords(b)[i] in Used;
    if b {
      CreateIfNotExistsJoin();
    } else {
      JoinTwo("CREATE", "DATABASE", " ");
    }
  }

  lemma CreateIfNotExistsJoin()
    ensures Join(CreateWords(true), " ") + " " == "CREATE DATABASE " + "IF NOT EXISTS "
  {
    JoinFive(CreateWords(true), " ");
    assert "CREATE" + " " + "DATABASE" + " " == "CREATE DATABASE ";
    assert "IF" + " " + "NOT" + " " + "EXISTS" + " " == "IF NOT EXISTS ";
    Regroup4("CREATE" + " " + "DATABASE" + " ", "IF", " ", "NOT", " ", "EXISTS", " ");
  }

  lemma Regroup4(a: string, b: string, c: string, d: string, e: string, f: string, g: string)
    ensures a + b + c + d + e + f + g == a + (b + c + d + e + f + g)
  {
  }

  /** `use()`: `USE `name``. */
  function Use(reg: Registry, db: Database): (r: Result<string, Error>)
    ensures r.Success? <==> "USE" in reg
    ensures r.Success? ==> r.value == "USE " + Quote(db.dbName)
    ensures r.Failure? ==> r.error == InvalidKeyword
  {
    UseRenders(reg, db.dbName);
    Build(reg, Query([Keyword("USE"), LiteralIdentifier(db.dbName)]))
  }

  lemma UseRenders(reg: Registry, name: string)
    ensures Build(reg, Query([Keyword("USE"), LiteralIdentifier(name)])).Success? <==> "USE" in reg
    ensures "USE" in reg ==>
              Build(reg, Query([Keyword("USE"), LiteralIdentifier(name)])).value == "USE " + Quote(name)
  {
    var parts := [Keyword("USE"), LiteralIdentifier(name)];
    UsedKeywordAccepted(reg, "USE");
    if "USE" in reg {
      assert AllAccepted(reg, parts);
      assert Texts(parts) == ["USE", Quote(name)];
      JoinTwo("USE", Quote(name), " ");
    } else {
      assert !Accepted(reg, parts[0]);
    }
  }

  /** The keywords of `DROP [IF EXISTS]`: there is no `DATABASE` keyword. */
  function DropWords(ifExists: bool): seq<string> {
    ["DROP"] + (if ifExists then ["IF", "EXISTS"] else [])
  }

  /** `drop(ifExists)`: `DROP [IF EXISTS] `name``. */
  function Drop(reg: Registry, db: Database, ifExists: bool): (r: Result<string, Error>)
    ensures r.Success? <==> Elems(DropWords(ifExists)) <= reg.Keys
    ensures r.Success? ==>
              r.value == "DROP " + (if ifExists then "IF EXISTS " else "") + Quote(db.dbName)
    ensures r.Failure? ==> r.error == InvalidKeyword
  {
    var words := DropWords(ifExists);
    var q := Query([Keyword("DROP")] + Tables.IfExists(ifExists) + [LiteralIdentifier(db.dbName)]);
    assert q.parts == KeywordParts(words) + [LiteralIdentifier(db.dbName)];
    KeywordsThenNameRender(reg, words, db.dbName);
    DropWordsJoin(ifExists);
    Build(reg, q)
  }

  lemma DropWordsJoin(b: bool)
    ensures forall i :: 0 <= i < |DropWords(b)| ==> IsUpper(DropWords(b)[i])
    ensures Join(DropWords(b), " ") + " " == "DROP " + (if b then "IF EXISTS " else "")
  {
    UsedAreUpper();
    assert forall i :: 0 <= i < |DropWords(b)| ==> DropWords(b)[i] in Used;
    if b {
      JoinThree(DropWords(b), " ");
      assert "DROP" + " " + "IF" + " " + "EXISTS" + " " == "DROP " + "IF EXISTS ";
    }
  }

  lemma TableNamesCons(tables: seq<Tables.Table>)
    requires |tables| > 0
    ensures TableNames(tables) == [Tables.RawName(tables[0])] + TableNames(tables[1..])
  {
    var r := [Tables.RawName(tables[0])] + TableNames(tables[1..]);
    forall i | 0 <= i < |tables|
      ensures TableNames(tables)[i] == r[i]
    {
      if i > 0 {
        assert tables[1..][i - 1] == tables[i];
      }
    }
  }

  /** `tables.find(T => T.rawName() === name)`: the position of the first
      table with that raw name. */
  function FindTable(tables: seq<Tables.Table>, name: string): (r: Option<nat>)
    ensures r.Some? ==> r.value < |tables| && Tables.RawName(tables[r.value]) == name
    ensures r.Some? ==> forall j :: 0 <= j < r.value ==> Tables.RawName(tables[j]) != name
    ensures r.None? <==> name !in TableNames(tables)
  {
    if |tables| == 0 then None
    else if Tables.RawName(tables[0]) == name then Some(0)
    else
      var rest := FindTable(tables[1..], name);
      TableNamesCons(tables);
      match rest
      case None => None
      case Some(i) =>
        FindShift(tables, name, i);
        Some(i + 1)
  }

  lemma FindShift(tables: seq<Tables.Table>, name: string, i: nat)
    requires 0 < |tables| && i < |tables| - 1
    requires Tables.RawName(tables[0]) != name
    requires Tables.RawName(tables[1..][i]) == name
    requires forall j :: 0 <= j < i ==> Tables.RawName(tables[1..][j]) != name
    ensures Tables.RawName(tables[i + 1]) == name
    ensures forall j :: 0 <= j < i + 1 ==> Tables.RawName(tables[j]) != name
  {
    forall j | 0 < j < i + 1
      ensures Tables.RawName(tables[j]) != name
    {
      assert tables[j] == tables[1..][j - 1];
    }
  }

  /** Any first match is the one `FindTable` returns. */
  lemma FindTableFirst(tables: seq<Tables.Table>, name: string)
    ensures forall i :: 0 <= i < |tables| && Tables.RawName(tables[i]) == name
              && (forall j :: 0 <= j < i ==> Tables.RawName(tables[j]) != name)
              ==> FindTable(tables, name) == Some(i)
  {
    forall i | 0 <= i < |tables| && Tables.RawName(tables[i]) == name
               && (forall j :: 0 <= j < i ==> Tables.RawName(tables[j]) != name)
      ensures FindTable(tables, name) == Some(i)
    {
      FindTableAt(tables, name, i);
    }
  }

  lemma FindTableAt(tables: seq<Tables.Table>, name: string, i: nat)
    requires i < |tables| && Tables.RawName(tables[i]) == name
    requires forall j :: 0 <= j < i ==> Tables.RawName(tables[j]) != name
    ensures FindTable(tables, name) == Some(i)
  {
    assert TableNames(tables)[i] == name;
    var k := FindTable(tables, name).value;
    assert Tables.RawName(tables[k]) == name;
    assert !(k < i);
    assert !(i < k);
  }

  /** `ensureTable(name)`: the `CREATE TABLE IF NOT EXISTS` statement of the
      first table with that raw name, or a not-found error naming it. */
  function EnsureTable(reg: Registry, db: Database, name: string): (r: Result<string, Error>)
    ensures name !in TableNames(db.tables) ==> r == Failure(TableNotFound(name))
    ensures forall i :: 0 <= i < |db.tables| && Tables.RawName(db.tables[i]) == name
              && (forall j :: 0 <= j < i ==> Tables.RawName(db.tables[j]) != name)
              ==> r == Tables.Create(reg, db.tables[i], true)
  {
    FindTableFirst(db.tables, name);
    match FindTable(db.tables, name)
    case None => Failure(TableNotFound(name))
    case Some(i) => Tables.Create(reg, db.tables[i], true)
  }

  /** In a database with unique table names, `ensureTable` of an owned name
      is that table's `create(true)`, and with a covering registry it fails
      exactly when the name is not owned. */
  lemma EnsureTableOwned(reg: Registry, db: Database, i: nat)
    requires Valid(db) && i < |db.tables|
    ensures EnsureTable(reg, db, Tables.RawName(db.tables[i])) == Tables.Create(reg, db.tables[i], true)
  {
    var name := Tables.RawName(db.tables[i]);
    var k := FindTable(db.tables, name).value;
    assert TableNames(db.tables)[k] == TableNames(db.tables)[i];
  }

  lemma EnsureTableFailsIffMissing(reg: Registry, db: Database, name: string)
    requires Covers(reg)
    ensures EnsureTable(reg, db, name).Failure? <==> name !in TableNames(db.tables)
  {
    assert Tables.CreateKeywords(true) <= Used;
  }

  /** `ensureTables(names)`: `ensureTable` of each name in order, stopping at
      the first failure. */
  function EnsureTables(reg: Registry, db: Database, names: seq<string>): (r: Result<seq<string>, Error>)
    ensures r.Success? <==> forall i :: 0 <= i < |names| ==> EnsureTable(reg, db, names[i]).Success?
    ensures r.Success? ==> |r.value| == |names|
    ensures r.Success? ==> forall i :: 0 <= i < |names| ==> r.value[i] == EnsureTable(reg, db, names[i]).value
    ensures r.Failure? ==>
              exists k :: (0 <= k < |names|
                && (forall j :: 0 <= j < k ==> EnsureTable(reg, db, names[j]).Success?)
                && EnsureTable(reg, db, names[k]) == Failure(r.error))
  {
    var rs := Statements(reg, db, names);
    var r := Collect(rs);
    CollectFailure(reg, db, names, rs, r);
    r
  }

  /** `ensureTable` of each name, unevaluated into a single result. */
  function Statements(reg: Registry, db: Database, names: seq<string>): (rs: seq<Result<string, Error>>)
    ensures |rs| == |names|
    ensures forall i :: 0 <= i < |names| ==> rs[i] == EnsureTable(reg, db, names[i])
  {
    seq(|names|, i requires 0 <= i < |names| => EnsureTable(reg, db, names[i]))
  }

  lemma CollectFailure(reg: Registry, db: Database, names: seq<string>,
                       rs: seq<Result<string, Error>>, r: Result<seq<string>, Error>)
    requires |rs| == |names|
    requires forall i :: 0 <= i < |names| ==> rs[i] == EnsureTable(reg, db, names[i])
    requires r == Collect(rs)
    ensures r.Failure? ==>
              exists k :: (0 <= k < |names|
                && (forall j :: 0 <= j < k ==> EnsureTable(reg, db, names[j]).Success?)
                && EnsureTable(reg, db, names[k]) == Failure(r.error))
  {
    if r.Failure? {
      var k :| 0 <= k < |rs| && rs[k] == Failure(r.error) && forall j :: 0 <= j < k ==> rs[j].Success?;
      assert EnsureTable(reg, db, names[k]) == Failure(r.error);
    }
  }

  /** With a covering registry, `ensureTables` fails exactly when some name is
      not owned, and then with the not-found error of the first such name. */
  lemma EnsureTablesMissing(reg: Registry, db: Database, names: seq<string>)
    requires Covers(reg)
    ensures EnsureTables(reg, db, names).Success?
        <==> forall i :: 0 <= i < |names| ==> names[i] in TableNames(db.tables)
    ensures forall k :: 0 <= k < |names| && names[k] !in TableNames(db.tables)
              && (forall j :: 0 <= j < k ==> names[j] in TableNames(db.tables))
              ==> EnsureTables(reg, db, names) == Failure(TableNotFound(names[k]))
  {
    forall i | 0 <= i < |names|
      ensures EnsureTable(reg, db, names[i]).Failure? <==> names[i] !in TableNames(db.tables)
    {
      EnsureTableFailsIffMissing(reg, db, names[i]);
    }
  }
}
