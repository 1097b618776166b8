/** A table declaration: its name, ordered columns with unique names, a
    trailing key clause and an optional alias, and the `CREATE TABLE` /
    `DROP TABLE` statements derived from them. */
module Tables {
  import opened Wrappers
  import opened Errors
  import opened Seqs
  import opened Strings
  import opened Keywords
  import opened Builder

  /** One declared column. `notNull`, `default` and `raw` may be absent. */
  datatype Column = Column(
    name: string,
    typ: string,
    notNull: Option<bool>,
    default: Option<string>,
    raw: Option<string>)

  datatype Table = Table(tableName: string, columns: seq<Column>, key: string, alias: Option<string>)

  function ColumnNames(columns: seq<Column>): (r: seq<string>)
    ensures |r| == |columns|
    ensures forall i :: 0 <= i < |columns| ==> r[i] == columns[i].name
  {
    seq(|columns|, i requires 0 <= i < |columns| => columns[i].name)
  }

  /** A table whose column names are pairwise different. */
  predicate Valid(t: Table) {
    Distinct(ColumnNames(t.columns))
  }

  /** The constructor: it refuses a column list in which two columns share
      a name, and otherwise stores its arguments. */
  function NewTable(name: string, columns: seq<Column>, key: string, alias: Option<string>): (r: Result<Table, Error>)
    ensures r.Success? <==> Distinct(ColumnNames(columns))
    ensures r.Success? ==> r.value == Table(name, columns, key, alias) && Valid(r.value)
    ensures r.Failure? ==> r.error == DuplicateColumn
  {
    DedupKeepsLengthIffDistinct(ColumnNames(columns));
    if |Dedup(ColumnNames(columns))| != |columns| then Failure(DuplicateColumn)
    else Success(Table(name, columns, key, alias))
  }

  /** `rawName()`: the declared name, neither quoted nor aliased. */
  function RawName(t: Table): (r: string)
    ensures r == t.tableName
  {
    t.tableName
  }

  /** The alias counts only when present and non-empty (JavaScript truthiness). */
  predicate HasAlias(t: Table) {
    t.alias.Some? && t.alias.value != ""
  }

  /** Identifier parts free of the quote character. */
  predicate PlainNames(t: Table) {
    Unquoted(t.tableName) && (HasAlias(t) ==> Unquoted(t.alias.value))
  }

  /** `aliasedName()` (also `toString()` and `valueOf()`): the quoted name,
      followed by a space and the quoted alias when there is one. Reading it
      back recovers the name and the alias. */
  function AliasedName(t: Table): (r: string)
    ensures Quote(RawName(t)) <= r
    ensures !HasAlias(t) ==> r == Quote(RawName(t))
    ensures PlainNames(t) ==>
              ParseQuotedPair(r, ' ') == Some((t.tableName, if HasAlias(t) then Some(t.alias.value) else None))
  {
    if HasAlias(t) then
      ParseQuotedDouble(t.tableName, ' ', t.alias.value);
      Quote(t.tableName) + " " + Quote(t.alias.value)
    else
      ParseQuotedSingle(t.tableName, ' ');
      Quote(t.tableName)
  }

  /** Quoting does not escape the quote character, so a name holding
      backticks can look like a name with an alias: no read-back of the
      aliased name can hold for every name. */
  lemma AliasedNameCollision()
    ensures AliasedName(Table("a` `b", [], "", None)) == AliasedName(Table("a", [], "", Some("b")))
  {
    assert Quote("a` `b") == "`a` `b`";
    assert Quote("a") + " " + Quote("b") == "`a` `b`";
  }

  /** `column(n)`: the quoted column name, qualified by the quoted alias when
      there is one. The name is not checked against the declared columns.
      Reading it back recovers the qualifier and the column name. */
  function ColumnRef(t: Table, n: string): (r: string)
    ensures Unquoted(n) && (HasAlias(t) ==> Unquoted(t.alias.value)) ==>
              ParseQuotedPair(r, '.') == if HasAlias(t) then Some((t.alias.value, Some(n))) else Some((n, None))
  {
    if HasAlias(t) then
      ParseQuotedDouble(t.alias.value, '.', n);
      Quote(t.alias.value) + "." + Quote(n)
    else
      ParseQuotedSingle(n, '.');
      Quote(n)
  }

  /** The fragment a column contributes to `CREATE TABLE`: its raw override
      verbatim, or a column definition whose `null` flag is `notNull ?? true`
      and whose default is `default ?? null`. */
  function ColumnPart(col: Column): (p: QueryPart)
    ensures p.Raw? <==> col.raw.Some?
    ensures p.Raw? ==> p.value == col.raw.value
    ensures p.ColumnDef? <==> col.raw.None?
    ensures p.ColumnDef? ==>
              && p.name == col.name && p.valType == col.typ
              && (p.nullable <==> col.notNull != Some(false))
              && p.default == col.default
  {
    match col.raw
    case Some(text) => Raw(text)
    case None => ColumnDef(col.name, col.typ, col.notNull.GetOr(true), col.default)
  }

  /** The column fragments of `CREATE TABLE`: each column's fragment, with a
      comma after every column but the last. */
  function ColumnParts(columns: seq<Column>): (r: seq<QueryPart>)
    ensures |columns| == 0 ==> r == []
    ensures |columns| > 0 ==> |r| == 2 * |columns| - 1
  {
    if |columns| == 0 then []
    else if |columns| == 1 then [ColumnPart(columns[0])]
    else [ColumnPart(columns[0]), Comma] + ColumnParts(columns[1..])
  }

  /** Column `i` sits at position `2 i`, and a comma follows every column
      but the last. */
  lemma {:induction false} ColumnPartsAt(columns: seq<Column>)
    ensures forall i :: 0 <= i < |columns| ==> ColumnParts(columns)[2 * i] == ColumnPart(columns[i])
    ensures forall i :: 0 <= i < |columns| - 1 ==> ColumnParts(columns)[2 * i + 1] == Comma
  {
    if |columns| > 1 {
      var rest := columns[1..];
      ColumnPartsAt(rest);
      var r := ColumnParts(columns);
      forall i | 1 <= i < |columns|
        ensures r[2 * i] == ColumnPart(columns[i])
      {
        assert r[2 * i] == ColumnParts(rest)[2 * (i - 1)];
        assert rest[i - 1] == columns[i];
      }
      forall i | 1 <= i < |columns| - 1
        ensures r[2 * i + 1] == Comma
      {
        assert r[2 * i + 1] == ColumnParts(rest)[2 * (i - 1) + 1];
      }
    }
  }

  /** Exactly one comma between each adjacent pair of columns, none after
      the last, and nothing but columns and commas. */
  lemma CommaPlacement(columns: seq<Column>)
    requires |columns| > 0
    ensures |ColumnParts(columns)| == 2 * |columns| - 1
    ensures forall k :: 0 <= k < |ColumnParts(columns)| ==>
              (ColumnParts(columns)[k] == Comma <==> k % 2 == 1)
    ensures ColumnParts(columns)[|ColumnParts(columns)| - 1] == ColumnPart(columns[|columns| - 1])
  {
    var r := ColumnParts(columns);
    ColumnPartsAt(columns);
    forall k | 0 <= k < |r|
      ensures r[k] == Comma <==> k % 2 == 1
    {
      CommaAt(columns, k);
    }
    assert |r| - 1 == 2 * (|columns| - 1);
  }

  lemma CommaAt(columns: seq<Column>, k: nat)
    requires k < |ColumnParts(columns)|
    requires forall i :: 0 <= i < |columns| ==> ColumnParts(columns)[2 * i] == ColumnPart(columns[i])
    requires forall i :: 0 <= i < |columns| - 1 ==> ColumnParts(columns)[2 * i + 1] == Comma
    ensures ColumnParts(columns)[k] == Comma <==> k % 2 == 1
  {
    var i := k / 2;
    if k % 2 == 0 {
      assert k == 2 * i;
      assert ColumnParts(columns)[2 * i] == ColumnPart(columns[i]);
    } else {
      assert k == 2 * i + 1;
    }
  }

  /** The text of each column as `CREATE TABLE` shows it. */
  function ColumnTexts(columns: seq<Column>): (r: seq<string>)
    ensures |r| == |columns|
    ensures forall i :: 0 <= i < |columns| ==> r[i] == PartText(ColumnPart(columns[i]))
  {
    if |columns| == 0 then []
    else
      var rest := ColumnTexts(columns[1..]);
      assert forall i :: 1 <= i < |columns| ==> columns[1..][i - 1] == columns[i];
      [PartText(ColumnPart(columns[0]))] + rest
  }

  /** A column without override renders as quoted name, space, type, then
      ` NOT NULL` only when `notNull` is explicitly false, then ` DEFAULT d`
      when the default is a non-empty string. A column declared
      `notNull: true` therefore renders without ` NOT NULL`. */
  lemma ColumnText(col: Column)
    ensures col.raw.Some? ==> PartText(ColumnPart(col)) == col.raw.value
    ensures col.raw.None? ==>
              PartText(ColumnPart(col))
              == Quote(col.name) + " " + col.typ
                 + (if col.notNull == Some(false) then " NOT NULL" else "")
                 + (if col.default.Some? && col.default.value != "" then " DEFAULT " + col.default.value else "")
  {
  }

  /** The column fragments render as the column texts separated by ` , `. */
  lemma {:induction false} ColumnPartsRender(columns: seq<Column>)
    requires |columns| > 0
    ensures Join(Texts(ColumnParts(columns)), " ") == Join(ColumnTexts(columns), " , ")
  {
    var t := PartText(ColumnPart(columns[0]));
    if |columns| == 1 {
      assert Texts(ColumnParts(columns)) == [t];
      assert ColumnTexts(columns) == [t];
    } else {
      var rest := columns[1..];
      ColumnPartsRender(rest);
      ColumnTextsStep(columns);
      JoinCommaStep(t, Texts(ColumnParts(rest)), ColumnTexts(rest));
    }
  }

  /** Peeling the first column off both text lists. */
  lemma ColumnTextsStep(columns: seq<Column>)
    requires |columns| > 1
    ensures Texts(ColumnParts(columns))
         == [PartText(ColumnPart(columns[0])), ","] + Texts(ColumnParts(columns[1..]))
    ensures ColumnTexts(columns) == [PartText(ColumnPart(columns[0]))] + ColumnTexts(columns[1..])
  {
    assert ColumnParts(columns) == [ColumnPart(columns[0]), Comma] + ColumnParts(columns[1..]);
    TextsThenComma(ColumnPart(columns[0]), ColumnParts(columns[1..]));
  }

  lemma TextsThenComma(p: QueryPart, rest: seq<QueryPart>)
    ensures Texts([p, Comma] + rest) == [PartText(p), ","] + Texts(rest)
  {
    TextsConcat([p, Comma], rest);
    assert Texts([p, Comma]) == [PartText(p), ","];
  }

  /** One column text and a comma fragment, joined by spaces, extend a
      ` , `-joined list by one element. */
  lemma JoinCommaStep(t: string, parts: seq<string>, texts: seq<string>)
    requires |parts| > 0 && |texts| > 0 && Join(parts, " ") == Join(texts, " , ")
    ensures Join([t, ","] + parts, " ") == Join([t] + texts, " , ")
  {
    JoinConcat([t, ","], parts, " ");
    JoinTwo(t, ",", " ");
    JoinConcat([t], texts, " , ");
    assert Join([t], " , ") == t;
  }

  /** `IF NOT EXISTS` as three keywords when requested. */
  function IfNotExists(b: bool): seq<QueryPart> {
    if b then [Keyword("IF"), Keyword("NOT"), Keyword("EXISTS")] else []
  }

  /** `IF EXISTS` as two keywords when requested. */
  function IfExists(b: bool): seq<QueryPart> {
    if b then [Keyword("IF"), Keyword("EXISTS")] else []
  }

  /** The fragments before the column list. */
  function CreateHead(t: Table, ifNotExists: bool): seq<QueryPart> {
    [Keyword("CREATE"), Keyword("TABLE")] + IfNotExists(ifNotExists)
    + [LiteralIdentifier(t.tableName), LParen]
  }

  /** The fragment list `create` renders. */
  function CreateParts(t: Table, ifNotExists: bool): (r: seq<QueryPart>)
    ensures |r| == (if ifNotExists then 9 else 6) + |ColumnParts(t.columns)|
    ensures r[..2] == [Keyword("CREATE"), Keyword("TABLE")]
    ensures ifNotExists ==> r[2..5] == [Keyword("IF"), Keyword("NOT"), Keyword("EXISTS")]
    ensures var h := if ifNotExists then 5 else 2;
              && r[h] == LiteralIdentifier(t.tableName) && r[h + 1] == LParen
              && r[h + 2..|r| - 2] == ColumnParts(t.columns)
              && r[|r| - 2..] == [RParen, Raw(t.key)]
  {
    CreateHead(t, ifNotExists) + ColumnParts(t.columns) + [RParen, Raw(t.key)]
  }

  /** The statement `create` is expected to produce, written out directly. */
  function CreateSql(t: Table, ifNotExists: bool): string {
    "CREATE TABLE " + (if ifNotExists then "IF NOT EXISTS " else "")
    + Quote(t.tableName) + " ( "
    + (if |t.columns| == 0 then "" else Join(ColumnTexts(t.columns), " , ") + " ")
    + ") " + t.key
  }

  /** The keywords `create` emits. */
  function CreateKeywords(ifNotExists: bool): set<string> {
    {"CREATE", "TABLE"} + (if ifNotExists then {"IF", "NOT", "EXISTS"} else {})
  }

  /** `create(ifNotExists)`: renders the table's `CREATE TABLE` statement. It
      fails only when the registry lacks one of the keywords it emits. */
  function Create(reg: Registry, t: Table, ifNotExists: bool): (r: Result<string, Error>)
    ensures r.Success? <==> CreateKeywords(ifNotExists) <= reg.Keys
    ensures r.Success? ==> r.value == CreateSql(t, ifNotExists)
    ensures r.Failure? ==> r.error == InvalidKeyword
  {
    CreateRenders(reg, t, ifNotExists);
    Build(reg, Query(CreateParts(t, ifNotExists)))
  }

  lemma CreateHeadAccepted(reg: Registry, t: Table, b: bool)
    ensures AllAccepted(reg, CreateHead(t, b)) <==> CreateKeywords(b) <= reg.Keys
  {
    var words := ["CREATE", "TABLE"] + (if b then ["IF", "NOT", "EXISTS"] else []);
    assert CreateHead(t, b) == KeywordParts(words) + [LiteralIdentifier(t.tableName), LParen];
    KeywordPartsAccepted(reg, words);
    AcceptedConcat(reg, KeywordParts(words), [LiteralIdentifier(t.tableName), LParen]);
    assert Elems(words) == CreateKeywords(b);
  }

  lemma CreateHeadText(t: Table, b: bool)
    ensures Join(Texts(CreateHead(t, b)), " ")
         == "CREATE TABLE " + (if b then "IF NOT EXISTS " else "") + Quote(t.tableName) + " ("
  {
    var n := Quote(t.tableName);
    if b {
      assert Texts(CreateHead(t, b)) == ["CREATE", "TABLE", "IF", "NOT", "EXISTS", n, "("];
      JoinCreateIfNotExists(n);
    } else {
      assert Texts(CreateHead(t, b)) == ["CREATE", "TABLE", n, "("];
      JoinCreate(n);
    }
  }

  lemma JoinCreateIfNotExists(n: string)
    ensures Join(["CREATE", "TABLE", "IF", "NOT", "EXISTS", n, "("], " ")
         == "CREATE TABLE " + "IF NOT EXISTS " + n + " ("
  {
    JoinSeven(["CREATE", "TABLE", "IF", "NOT", "EXISTS", n, "("], " ");
  }

  lemma JoinCreate(n: string)
    ensures Join(["CREATE", "TABLE", n, "("], " ") == "CREATE TABLE " + "" + n + " ("
  {
    JoinFour(["CREATE", "TABLE", n, "("], " ");
  }

  lemma CreateRenders(reg: Registry, t: Table, b: bool)
    ensures Build(reg, Query(CreateParts(t, b))).Success? <==> CreateKeywords(b) <= reg.Keys
    ensures Build(reg, Query(CreateParts(t, b))).Success? ==>
              Build(reg, Query(CreateParts(t, b))).value == CreateSql(t, b)
  {
    PiecesRender(reg, t, b);
  }

  /** `CreateRenders` over the three pieces of the fragment list. */
  lemma PiecesRender(reg: Registry, t: Table, b: bool)
    ensures var q := Query(CreateHead(t, b) + ColumnParts(t.columns) + [RParen, Raw(t.key)]);
              && (Build(reg, q).Success? <==> CreateKeywords(b) <= reg.Keys)
              && (Build(reg, q).Success? ==> Build(reg, q).value == CreateSql(t, b))
  {
    PiecesAccepted(reg, t, b);
    if CreateKeywords(b) <= reg.Keys {
      if |t.columns| > 0 {
        PiecesTextWithColumns(reg, t, b);
      } else {
        PiecesTextWithoutColumns(reg, t, b);
      }
    }
  }

  lemma PiecesAccepted(reg: Registry, t: Table, b: bool)
    ensures AllAccepted(reg, CreateHead(t, b) + ColumnParts(t.columns) + [RParen, Raw(t.key)])
        <==> CreateKeywords(b) <= reg.Keys
  {
    var head := CreateHead(t, b);
    var cols := ColumnParts(t.columns);
    var tail := [RParen, Raw(t.key)];
    ColumnPartsAccepted(reg, t.columns);
    assert AllAccepted(reg, tail);
    CreateHeadAccepted(reg, t, b);
    AcceptedConcat(reg, head, cols);
    AcceptedConcat(reg, head + cols, tail);
  }

  /** The closing fragments render as `) key`. */
  lemma TailText(key: string)
    ensures Join(Texts([RParen, Raw(key)]), " ") == ") " + key
  {
    assert Texts([RParen, Raw(key)]) == [")", key];
    JoinTwo(")", key, " ");
    assert ")" + " " + key == ") " + key;
  }

  lemma PiecesTextWithColumns(reg: Registry, t: Table, b: bool)
    requires CreateKeywords(b) <= reg.Keys && |t.columns| > 0
    ensures var q := Query(CreateHead(t, b) + ColumnParts(t.columns) + [RParen, Raw(t.key)]);
              Build(reg, q).Success? && Build(reg, q).value == CreateSql(t, b)
  {
    PiecesAccepted(reg, t, b);
    CreateHeadAccepted(reg, t, b);
    var head := CreateHead(t, b);
    var cols := ColumnParts(t.columns);
    var tail := [RParen, Raw(t.key)];
    ColumnPartsAccepted(reg, t.columns);
    assert AllAccepted(reg, tail);
    var h := Join(Texts(head), " ");
    var c := Join(Texts(cols), " ");
    var k := Join(Texts(tail), " ");
    CreateHeadText(t, b);
    TailText(t.key);
    BuildConcat(reg, head + cols, tail);
    BuildConcat(reg, head, cols);
    ColumnPartsRender(t.columns);
    CreateSqlWithColumns(t, b, h, c, k);
  }

  lemma PiecesTextWithoutColumns(reg: Registry, t: Table, b: bool)
    requires CreateKeywords(b) <= reg.Keys && |t.columns| == 0
    ensures var q := Query(CreateHead(t, b) + ColumnParts(t.columns) + [RParen, Raw(t.key)]);
              Build(reg, q).Success? && Build(reg, q).value == CreateSql(t, b)
  {
    PiecesAccepted(reg, t, b);
    CreateHeadAccepted(reg, t, b);
    var head := CreateHead(t, b);
    var tail := [RParen, Raw(t.key)];
    assert AllAccepted(reg, tail);
    assert head + ColumnParts(t.columns) + tail == head + tail;
    var h := Join(Texts(head), " ");
    var k := Join(Texts(tail), " ");
    CreateHeadText(t, b);
    TailText(t.key);
    BuildConcat(reg, head, tail);
    CreateSqlWithoutColumns(t, b, h, k);
  }

  lemma CreateSqlWithColumns(t: Table, b: bool, h: string, c: string, k: string)
    requires |t.columns| > 0
    requires h == "CREATE TABLE " + (if b then "IF NOT EXISTS " else "") + Quote(t.tableName) + " ("
    requires c == Join(ColumnTexts(t.columns), " , ")
    requires k == ") " + t.key
    ensures h + " " + c + " " + k == CreateSql(t, b)
  {
  }

  lemma CreateSqlWithoutColumns(t: Table, b: bool, h: string, k: string)
    requires |t.columns| == 0
    requires h == "CREATE TABLE " + (if b then "IF NOT EXISTS " else "") + Quote(t.tableName) + " ("
    requires k == ") " + t.key
    ensures h + " " + k == CreateSql(t, b)
  {
  }

  /** Column fragments hold no keyword, so they always pass the render check. */
  lemma ColumnPartsAccepted(reg: Registry, columns: seq<Column>)
    ensures AllAccepted(reg, ColumnParts(columns))
  {
    var r := ColumnParts(columns);
    ColumnPartsAt(columns);
    forall k | 0 <= k < |r|
      ensures Accepted(reg, r[k])
    {
      var i := k / 2;
      if k % 2 == 0 {
        assert k == 2 * i;
        assert r[2 * i] == ColumnPart(columns[i]);
      } else {
        assert k == 2 * i + 1;
      }
    }
  }

  /** With an empty key clause the statement still ends in the separator
      before it: `... ) ` with a trailing space. */
  lemma EmptyKeyTrailingSpace(reg: Registry, t: Table, b: bool)
    requires t.key == "" && Covers(reg)
    ensures Create(reg, t, b).Success?
    ensures var s := Create(reg, t, b).value; |s| >= 2 && s[|s| - 2..] == ") "
  {
  }

  /** `drop(ifExists)`: the unrendered `DROP TABLE` query. */
  function Drop(t: Table, ifExists: bool): (q: Query)
    ensures |q.parts| == (if ifExists then 5 else 3)
    ensures q.parts[..2] == [Keyword("DROP"), Keyword("TABLE")]
    ensures ifExists ==> q.parts[2..4] == [Keyword("IF"), Keyword("EXISTS")]
    ensures q.parts[|q.parts| - 1] == LiteralIdentifier(t.tableName)
  {
    Query([Keyword("DROP"), Keyword("TABLE")] + IfExists(ifExists) + [LiteralIdentifier(t.tableName)])
  }

  /** The keywords `drop` emits. */
  function DropKeywords(ifExists: bool): set<string> {
    {"DROP", "TABLE"} + (if ifExists then {"IF", "EXISTS"} else {})
  }

  /** The `drop` query passes the render check exactly when the registry
      holds its keywords. */
  lemma DropAccepted(reg: Registry, t: Table, b: bool)
    ensures Build(reg, Drop(t, b)).Success? <==> DropKeywords(b) <= reg.Keys
  {
    var parts := Drop(t, b).parts;
    UsedKeywordAccepted(reg, "DROP");
    UsedKeywordAccepted(reg, "TABLE");
    UsedKeywordAccepted(reg, "IF");
    UsedKeywordAccepted(reg, "EXISTS");
    if b {
      assert parts == [Keyword("DROP"), Keyword("TABLE"), Keyword("IF"), Keyword("EXISTS"),
                       LiteralIdentifier(t.tableName)];
    } else {
      assert parts == [Keyword("DROP"), Keyword("TABLE"), LiteralIdentifier(t.tableName)];
    }
    if AllAccepted(reg, parts) {
      assert Accepted(reg, parts[0]) && Accepted(reg, parts[1]);
      if b {
        assert Accepted(reg, parts[2]) && Accepted(reg, parts[3]);
      }
    }
    if DropKeywords(b) <= reg.Keys {
      assert "DROP" in reg && "TABLE" in reg;
      assert b ==> "IF" in reg && "EXISTS" in reg;
      forall i | 0 <= i < |parts|
        ensures Accepted(reg, parts[i])
      {
      }
    }
  }

  /** Rendering the `drop` query gives `DROP TABLE [IF EXISTS] `name``. */
  lemma DropRenders(reg: Registry, t: Table, b: bool)
    requires Covers(reg)
    ensures Build(reg, Drop(t, b))
         == Success("DROP TABLE " + (if b then "IF EXISTS " else "") + Quote(t.tableName))
  {
    UsedAreUpper();
    var q := Drop(t, b);
    var n := Quote(t.tableName);
    if b {
      assert q.parts == [Keyword("DROP"), Keyword("TABLE"), Keyword("IF"), Keyword("EXISTS"), LiteralIdentifier(t.tableName)];
      assert Texts(q.parts) == ["DROP", "TABLE", "IF", "EXISTS", n];
      JoinDropIfExists(n);
    } else {
      assert q.parts == [Keyword("DROP"), Keyword("TABLE"), LiteralIdentifier(t.tableName)];
      assert Texts(q.parts) == ["DROP", "TABLE", n];
      JoinDrop(n);
    }
  }

  lemma JoinDropIfExists(n: string)
    ensures Join(["DROP", "TABLE", "IF", "EXISTS", n], " ") == "DROP TABLE " + "IF EXISTS " + n
  {
    JoinFive(["DROP", "TABLE", "IF", "EXISTS", n], " ");
  }

  lemma JoinDrop(n: string)
    ensures Join(["DROP", "TABLE", n], " ") == "DROP TABLE " + "" + n
  {
    JoinThree(["DROP", "TABLE", n], " ");
  }
}
