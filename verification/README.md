# mysql-query-builder, modelled in Dafny

A model of the core of `mysql-query-builder`, a TypeScript library that emits
MySQL statements as strings. It covers four parts:

- the statement builder `Query`. It accumulates typed fragments, classifies bare
  strings as keywords or raw text, and renders the fragment list into one string.
  Rendering joins the fragment texts with single spaces. It throws
  `Invalid keyword!` for an unregistered keyword.
- the `Table` declaration. Its constructor refuses duplicate column names. It
  derives quoted names and column references, and the `CREATE TABLE` and
  `DROP TABLE` statements.
- the `Database` declaration. Its constructor refuses duplicate table names. It
  derives `CREATE DATABASE`, `USE` and `DROP`, and `ensureTable` / `ensureTables`.
- `keymap`, the identity map that the keyword registry is built with.

The model is purely functional:

- A builder is a value `Query(parts)`. `push` and the fluent helpers return the
  extended value instead of mutating `this`.
- Every `throw` of the source is a `Failure` of the `Result` type. Its error
  datatype keeps the exact message texts (`Errors.Message`).
- The keyword registry is a parameter `reg` of type `map<string, string>`. Its
  word list lives in `keywords.ts`, which is not part of this model. Render
  properties are proved for any registry that holds the keywords the library
  emits itself (`Keywords.Covers`).

Modules, one per file:

| module | file | models |
|---|---|---|
| `Wrappers` | wrappers.dfy | `Option`, `Result`, and `Collect`, a mapping whose callback may throw |
| `Errors` | errors.dfy | the four thrown errors and their texts |
| `Seqs` | seqs.dfy | element sets, duplicate-freedom, `[...new Set(xs)]` |
| `Strings` | strings.dfy | backtick quoting, `join`, `split`, ASCII `toUpperCase` |
| `KeyMaps` | keymap.dfy | `keymap` |
| `Keywords` | keywords.dfy | the registry as a map, `isKeyword` |
| `Builder` | builder.dfy | `QueryPart`, `Query`, `push`, `build`, the fluent helpers |
| `Tables` | table.dfy | `Table` |
| `Databases` | database.dfy | `Database` |
| `Demo` | demo.dfy | the repository's example script as concrete scenarios |

### Behaviour worth knowing

- **`NOT NULL` polarity.** The column fragment's `null` flag is `notNull ?? true`,
  and the renderer adds ` NOT NULL` only when that flag is false. So `notNull: true`
  renders without `NOT NULL`, and only `notNull: false` produces it.
- **The third constructor argument** is the key clause. It renders after the
  closing parenthesis: the example table's `"tbl"` gives `... ) tbl`.
- **Defaults.** A default renders only when it is a non-empty string (JavaScript
  truthiness). An absent default and `""` render the same way.
- **Aliases.** The alias counts only when it is a non-empty string.
- **Render check.** `build` looks up the upper-cased keyword (`toUpperCase() in
  keywords`). A keyword passes only when its upper-cased spelling is a registry key; lower-case registry entries never match.
- **`Table.create`** returns the rendered string. **`Table.drop`** returns the
  unrendered query.
- **`column(name)`** does not check the name against the declared columns.
- **`ensureTables`** is `map` over `ensureTable`, so it stops at the first missing
  name.
- **`Database.drop`** renders `` DROP [IF EXISTS] `name` ``, with no `DATABASE`
  keyword.

## Model

| member | source | states |
|---|---|---|
| Wrappers.Collect | src/structures/database.ts:75-77 | a mapping whose callback may throw succeeds iff every call succeeds, and then holds every value in order; otherwise it fails with the error of a call that is preceded only by successes |
| Seqs.Dedup | src/structures/table.ts:6 | spreading a `Set` keeps exactly the elements of the list, has no repeats, and is never longer |
| Seqs.ElemsCard | src/structures/table.ts:6 | a list has at least as many positions as distinct elements, with equality iff no element repeats |
| Seqs.DedupKeepsLengthIffDistinct | src/structures/table.ts:6 | the uniqueness test `[...new Set(xs)].length !== xs.length` is false exactly on duplicate-free lists |
| Strings.Quote | src/syntax/builder.ts:74 | a quoted identifier is the name with one backtick before and one after, and nothing else |
| Strings.Unquote | src/syntax/builder.ts:73-75 | a quoted identifier is read back only from a backtick-wrapped text and re-quotes to it |
| Strings.UnquoteQuote | src/syntax/builder.ts:73-75 | quoting a backtick-free identifier and reading it back gives the identifier |
| Strings.Join | src/syntax/builder.ts:78 | no pieces join to the empty text, one piece to itself, and several start with the first piece and the separator; `Split` inverts it (below) |
| Strings.JoinConcat | src/syntax/builder.ts:78 | joining a concatenation joins both halves with one more separator |
| Strings.Split | src/syntax/builder.ts:78 | cutting at a character yields at least one piece and no piece contains that character |
| Strings.JoinSplit | src/syntax/builder.ts:78 | joining the pieces of a split with the cut character restores the text |
| Strings.SplitJoin | src/syntax/builder.ts:78 | splitting a join of separator-free pieces gives the pieces back |
| Strings.ToUpper | src/syntax/builder.ts:50 | upper-casing keeps the length and maps every character by ASCII upper-casing |
| Strings.UpperFixed | src/syntax/builder.ts:50 | a word with no lower-case letter is unchanged by upper-casing |
| Strings.UpperIdempotent | src/syntax/builder.ts:50 | upper-casing yields an upper-case word, and a second upper-casing changes nothing |
| KeyMaps.Keymap | src/lib/keymap.ts:5-7 | the map's keys are exactly the listed words, and each key maps to itself |
| KeyMaps.KeymapIsIdentityOnElems | src/lib/keymap.ts:1-3 | the built object is the identity map over the list's elements, as the `KeyMap` type says |
| KeyMaps.KeymapDedup | src/lib/keymap.ts:6 | repeated keys collapse: de-duplicating the list first gives the same map |
| KeyMaps.KeymapEmpty | src/lib/keymap.ts:6 | no keys give the empty object |
| Keywords.FromListCovers | src/lib/keymap.ts:5-7 | a registry built from a word list knows every keyword the library emits iff the list contains them all |
| Keywords.UsedAreUpper | src/syntax/builder.ts:50 | every keyword the library emits is upper case, so the render check looks it up unchanged |
| Keywords.UpperWordsAreClosed | src/syntax/builder.ts:50 | in a registry of upper-case words, upper-casing a registered word gives a registered word |
| Keywords.IsKeyword | src/syntax/builder.ts:30 | a bare word the registry lists is classified as a keyword, and an upper-case one then also passes the render check; a word outside the registry is not a keyword and becomes raw text |
| Errors.MessageNamesTable | src/structures/database.ts:70 | the not-found message is the fixed lead-in followed by the missing name in backticks, for every name |
| Errors.MessageInjective | src/syntax/builder.ts:50 | the four thrown messages (builder.ts:50, table.ts:6, database.ts:6, database.ts:70) are pairwise different, and the not-found message determines the name |
| Builder.Classify | src/syntax/builder.ts:28-40 | a fragment argument is kept as given; a bare string becomes a keyword fragment iff it is a registered keyword, else a raw fragment, with its text unchanged either way |
| Builder.PartText | src/syntax/builder.ts:47-76 | a keyword, raw, condition or literal fragment shows its value verbatim; punctuation shows one of `(`, `)`, `;`, `,`; an identifier shows in backticks that read back to it; a column definition starts with its quoted name, a space and its type |
| Builder.Accepted | src/syntax/builder.ts:50 | every fragment but a keyword passes the render check, and a fragment is refused only when its upper-cased value is not registered |
| Builder.Push | src/syntax/builder.ts:26-43 | pushing appends one classified fragment per argument, in order, and leaves the earlier fragments untouched |
| Builder.PushRenders | src/syntax/builder.ts:26-79 | with an upper-case-closed registry, a pushed bare keyword always passes the render check, so the rendering grows by the arguments' texts joined by spaces |
| Builder.TextsConcat | src/syntax/builder.ts:46-77 | fragments render one by one: the texts of a concatenation are the concatenated texts |
| Builder.RenderParts | src/syntax/builder.ts:46-77 | the fragment mapping succeeds iff every keyword fragment's upper-cased spelling is registered; then it yields each fragment's text in order, otherwise the invalid-keyword error |
| Builder.Build | src/syntax/builder.ts:45-79 | `build` succeeds iff every keyword is registered in upper case; then it returns the fragment texts joined by single spaces, otherwise it fails with `Invalid keyword!` |
| Builder.BuildKeyword | src/syntax/builder.ts:49-52 | a keyword renders with its own spelling, case preserved, iff its upper-cased form is registered |
| Builder.BuildSingle | src/syntax/builder.ts:53-75 | a non-keyword fragment always renders: punctuation as `(`, `)`, `;`, `,`; raw text, conditions and literals verbatim; an identifier as its value in backticks, which read back to it when the value holds no backtick |
| Builder.BuildConcat | src/syntax/builder.ts:45-79 | rendering a concatenation succeeds iff both halves do, and then is the two renderings separated by one space |
| Builder.BuildSplit | src/syntax/builder.ts:78 | when no fragment text contains a space, splitting the rendering at spaces recovers the fragment texts |
| Builder.KeywordPartsAccepted | src/syntax/builder.ts:49-52 | upper-case keyword fragments pass the render check iff every word is registered |
| Builder.UsedKeywordAccepted | src/syntax/builder.ts:49-52 | a keyword the library emits passes the render check exactly when the registry holds it |
| Builder.AcceptedConcat | src/syntax/builder.ts:46-77 | a concatenation passes the render check iff both halves do |
| Builder.AppendRenders | src/syntax/builder.ts:45-79 | appending accepted fragments extends a non-empty rendering by a space and their joined texts, and leaves a failing prefix failing |
| Builder.Select | src/syntax/builder.ts:81-100 | `select` appends `SELECT` and then one literal per column, in order, with no commas |
| Builder.SelectRenders | src/syntax/builder.ts:81-100 | `select` extends the rendering by `SELECT` and the column names, separated by single spaces |
| Builder.From | src/syntax/builder.ts:102-117 | `from` appends `FROM`, then a string as one literal, or each array element as a quoted identifier |
| Builder.FromRenders | src/syntax/builder.ts:102-117 | `from` extends the rendering by `FROM` and then the string verbatim, or each array element in backticks |
| Builder.KeywordListSuffix | src/syntax/builder.ts:81-117 | a keyword followed by accepted operands passes the render check and renders as the keyword then the operand texts |
| Builder.KeywordThen | src/syntax/builder.ts:119-142 | a one-keyword helper appends exactly the keyword and its operand after the unchanged earlier fragments |
| Builder.Where | src/syntax/builder.ts:119-122 | `where` appends the `WHERE` keyword and the condition |
| Builder.And | src/syntax/builder.ts:124-127 | `and` appends the `AND` keyword and the condition |
| Builder.Or | src/syntax/builder.ts:129-132 | `or` appends the `OR` keyword and the condition |
| Builder.Not | src/syntax/builder.ts:134-137 | `not` appends the `NOT` keyword and the condition |
| Builder.Is | src/syntax/builder.ts:139-142 | `is` appends the `IS` keyword and the value as a literal |
| Builder.IsNot | src/syntax/builder.ts:144-147 | `isNot` appends the keywords `IS`, `NOT` and the value as a literal |
| Builder.InsertInto | src/syntax/builder.ts:149-152 | `insertInto` appends the keywords `INSERT`, `INTO` and the table as a literal |
| Builder.Create | src/syntax/builder.ts:154-156 | `create` appends only the `CREATE` keyword |
| Builder.Use | src/syntax/builder.ts:158-160 | `use` appends only the `USE` keyword |
| Builder.KeywordThenRenders | src/syntax/builder.ts:119-142 | a keyword and an operand extend the rendering by the keyword, a space and the operand's text |
| Builder.ConditionHelpersRender | src/syntax/builder.ts:119-137 | `where`, `and`, `or` and `not` extend the rendering by their keyword, a space and the condition text |
| Builder.ValueHelpersRender | src/syntax/builder.ts:139-152 | `is`, `isNot` and `insertInto` extend the rendering by `IS `, `IS NOT ` or `INSERT INTO ` and the value verbatim |
| Builder.TwoKeywordsThenRenders | src/syntax/builder.ts:144-152 | two emitted keywords and a literal extend the rendering by the three texts separated by spaces |
| Builder.KeywordHelpersRender | src/syntax/builder.ts:154-160 | `create` and `use` extend the rendering by one keyword; `use` ignores its database argument |
| Tables.NewTable | src/structures/table.ts:5-7 | the constructor succeeds iff the column names are pairwise different, storing its arguments; otherwise it fails with the duplicate-column error |
| Tables.RawName | src/structures/table.ts:9-11 | the raw name is the declared table name, unquoted and without alias |
| Tables.AliasedName | src/structures/table.ts:13-23 | the aliased name starts with the quoted raw name and is exactly that without an alias; reading it back recovers the table name, and the alias exactly when a non-empty one is set |
| Tables.AliasedNameCollision | src/structures/table.ts:13-15 | a name holding backticks and no alias can render exactly like another name with an alias |
| Tables.ColumnRef | src/structures/table.ts:25-27 | reading back a column reference recovers the alias qualifier when there is one, and the column name |
| Tables.ColumnPart | src/structures/table.ts:63-74 | a column with a raw override contributes it verbatim; otherwise a column definition that is nullable unless `notNull` is false, with its default passed through |
| Tables.ColumnParts | src/structures/table.ts:62-76 | no columns give no fragments, and `n` columns give `2n-1`, the columns and the commas between them (positions in `Tables.ColumnPartsAt`) |
| Tables.ColumnPartsAt | src/structures/table.ts:62-76 | column `i` sits at position `2i` of the column fragments, and a comma follows every column but the last |
| Tables.CommaPlacement | src/structures/table.ts:75 | there are `2n-1` column fragments; a fragment is a comma iff its position is odd, and the last is the last column |
| Tables.ColumnTexts | src/syntax/builder.ts:66 | each column shows as the text of its fragment, one per column, in order |
| Tables.ColumnText | src/syntax/builder.ts:66 | a column shows as its raw override, or as quoted name, space, type, then ` NOT NULL` only for `notNull: false`, then ` DEFAULT d` only for a non-empty default |
| Tables.ColumnPartsRender | src/structures/table.ts:62-76 | the column fragments render as the column texts separated by ` , ` |
| Tables.ColumnPartsAccepted | src/structures/table.ts:62-76 | column fragments never fail the render check |
| Tables.CreateParts | src/structures/table.ts:30-83 | the create fragments are `CREATE`, `TABLE`, then `IF`, `NOT`, `EXISTS` when asked, the table name as identifier, `(`, the column fragments, `)` and the key clause as raw text |
| Tables.CreateHeadAccepted | src/structures/table.ts:30-61 | the head of `CREATE TABLE` passes the render check iff the registry holds its keywords |
| Tables.CreateHeadText | src/structures/table.ts:30-61 | the head renders as `` CREATE TABLE [IF NOT EXISTS] `name` ( `` |
| Tables.CreateRenders | src/structures/table.ts:29-85 | rendering the create fragments succeeds iff the keywords are registered, and then gives the written-out statement |
| Tables.Create | src/structures/table.ts:29-85 | `create` fails only for unregistered keywords; otherwise it gives `` CREATE TABLE [IF NOT EXISTS] `name` ( cols ) key ``, with the column list omitted for no columns |
| Tables.EmptyKeyTrailingSpace | src/structures/table.ts:77-84 | with an empty key clause the statement still ends in `) ` with a trailing space |
| Tables.Drop | src/structures/table.ts:87-114 | `drop` gives an unrendered query: the keywords `DROP`, `TABLE`, then the keywords `IF`, `EXISTS` when asked, then the table name as identifier |
| Tables.DropAccepted | src/structures/table.ts:87-114 | that query passes the render check exactly when the registry holds `DROP`, `TABLE` and, when asked, `IF` and `EXISTS` |
| Tables.DropRenders | src/structures/table.ts:87-114 | that query renders as `` DROP TABLE [IF EXISTS] `name` `` |
| Databases.NewDatabase | src/structures/database.ts:5-7 | the constructor succeeds iff the tables' raw names are pairwise different; otherwise it fails with the duplicate-table error |
| Databases.KeywordsThenNameRender | src/structures/database.ts:9-66 | upper-case keywords followed by the quoted database name render iff the keywords are registered, as the words, a space and the quoted name |
| Databases.Create | src/structures/database.ts:9-40 | `create` succeeds iff its keywords are registered, giving `` CREATE DATABASE [IF NOT EXISTS] `name` `` |
| Databases.Use | src/structures/database.ts:42-47 | `use` succeeds iff `USE` is registered, giving `` USE `name` `` |
| Databases.UseRenders | src/structures/database.ts:42-47 | the `USE` fragment and the quoted name render iff `USE` is registered, as `` USE `name` `` |
| Databases.Drop | src/structures/database.ts:49-66 | `drop` succeeds iff its keywords are registered, giving `` DROP [IF EXISTS] `name` `` with no `DATABASE` keyword |
| Databases.FindTable | src/structures/database.ts:69 | `find` returns the position of the first table with that raw name, and nothing exactly when no table has it |
| Databases.FindTableFirst | src/structures/database.ts:69 | any first match is the position `find` returns |
| Databases.EnsureTable | src/structures/database.ts:68-73 | an unknown name fails with the not-found error naming it; otherwise the first table with that name is created `IF NOT EXISTS` |
| Databases.EnsureTableOwned | src/structures/database.ts:68-73 | in a valid database, `ensureTable` of a table's own name is that table's `create(true)` |
| Databases.EnsureTableFailsIffMissing | src/structures/database.ts:68-73 | with a covering registry, `ensureTable` fails exactly for names no table has |
| Databases.EnsureTables | src/structures/database.ts:75-77 | `ensureTables` succeeds iff every `ensureTable` does, yielding their statements in order; otherwise it fails with the error of a failing name preceded only by successes |
| Databases.EnsureTablesMissing | src/structures/database.ts:75-77 | with a covering registry, `ensureTables` succeeds iff every name is owned; otherwise it fails with the not-found error of the first unowned name |
| Demo.DemoConstructs | src/test.ts:4-30 | the example table and database pass both uniqueness checks |
| Demo.DuplicateColumnRefused | src/structures/table.ts:6 | two columns with the same name are refused with the duplicate-column error |
| Demo.DemoColumnTexts | src/test.ts:6-26 | the example columns show as `` `columnA` TINYINT UNSIGNED DEFAULT 5 ``, `` `columnB` TIMESTAMP ``, `` `columnC` ENUM('a', 'b') ``, `` `columnD` MEDIUMBLOB ``, with no `NOT NULL` |
| Demo.DemoTableCreate | src/test.ts:37 | `table.create(true)` is `` CREATE TABLE IF NOT EXISTS `tableName` ( … ) tbl ``, with the key clause after the parenthesis |
| Demo.DemoDatabaseCreate | src/test.ts:31 | `db.create(true)` is `` CREATE DATABASE IF NOT EXISTS `test` `` |
| Demo.DemoDatabaseUse | src/test.ts:32 | `db.use()` is `` USE `test` `` |
| Demo.DemoDatabaseDrop | src/test.ts:35 | `db.drop(true)` is `` DROP IF EXISTS `test` `` |
| Demo.DemoEnsure | src/test.ts:33-34 | `ensureTable("tableName")` is the table's `create(true)`; a missing name fails with `` No table with name `missing` ``; `ensureTables` maps |

## Left out

- The keyword word list (`keywords.ts`) is not part of this model. The registry is a parameter. Render lemmas assume it holds the keywords the library emits (`Keywords.Covers`). `isKeyword` is modelled as case-sensitive membership in the same map.
- Strings.ToUpper: upper-cases ASCII letters only. JavaScript's `toUpperCase` also maps other Unicode letters, and can change the length of a text. Neither matters for keywords, which are ASCII.
- JavaScript's `in` also sees properties inherited from `Object.prototype`. Upper-casing makes every such name (`constructor`, `toString`, …) miss, so `build` is unaffected. Whether the unseen `isKeyword` shares the quirk is unknown, and it is not modelled.
- In-place mutation and the returned `this` of `push` and the fluent helpers are not modelled: each call returns a new `Query` value. So two variables never share one builder. Rendering the same value twice gives the same string, because `Build` is a function.
- `toString()` and `valueOf()` are the same as `aliasedName()`, and are covered by `Tables.AliasedName`.
- Quoting does not escape backticks inside identifiers, and neither does the source. The read-back properties are therefore stated for backtick-free names.
- The type-level machinery is left out. It covers `UniqueColumnName`, `UniqueTableName`, `HasColumnWithName`, `TableName`, `RowType`, `CType` and `src/types/inferred.ts`. It only restricts what the TypeScript compiler accepts, and computes nothing at run time.
- `src/index.ts` only re-exports, and `console.log` in `src/test.ts` is output; neither is modelled.
- Tables.AliasedName: the read-back is stated only for backtick-free names and aliases. Quoting does not escape, so no read-back can hold for all names: the name ``a` `b`` without alias and the name `a` with alias `b` give the same text (`Tables.AliasedNameCollision`).
- Tables.ColumnRef: the read-back is stated only for backtick-free names and aliases, for the same reason as `Tables.AliasedName`.
- Tables.ColumnRef: performs no membership check of the column name, as in the source. An unknown name gives a reference to a column that does not exist; there is no error path for it.
