/** The statement builder: a `Query` is an ordered list of tagged fragments;
    `Push` and the fluent helpers append to it, and `Build` renders every
    fragment to text and joins the pieces with single spaces. A query is a
    value here: every operation returns the extended query instead of
    mutating a shared one. */
module Builder {
  import opened Wrappers
  import opened Errors
  import opened Strings
  import opened Keywords
  import Seqs

  /** One fragment of a statement. `ColumnDef.nullable` is the source's
      `null` flag (`null` is reserved in Dafny). */
  datatype QueryPart =
    | Keyword(value: string)
    | LParen
    | RParen
    | Semicolon
    | Comma
    | ColumnDef(name: string, valType: string, nullable: bool, default: Option<string>)
    | LiteralIdentifier(value: string)
    | Raw(value: string)
    | Literal(value: string)
    | Condition(value: string)

  datatype Query = Query(parts: seq<QueryPart>)

  /** An argument of `push`: a ready fragment, or a bare string to classify. */
  datatype PushArg = Part(part: QueryPart) | Bare(text: string)

  /** How `push` turns one argument into a fragment. */
  function Classify(reg: Registry, a: PushArg): (p: QueryPart)
    ensures a.Part? ==> p == a.part
    ensures a.Bare? ==> (p.Keyword? || p.Raw?) && p.value == a.text
    ensures a.Bare? ==> (p.Keyword? <==> IsKeyword(reg, a.text))
  {
    match a
    case Part(part) => part
    case Bare(text) => if IsKeyword(reg, text) then Keyword(text) else Raw(text)
  }

  /** `push(...args)`: appends one fragment per argument, in argument order. */
  function Push(reg: Registry, q: Query, args: seq<PushArg>): (r: Query)
    ensures |r.parts| == |q.parts| + |args|
    ensures r.parts[..|q.parts|] == q.parts
    ensures forall i :: 0 <= i < |args| ==> r.parts[|q.parts| + i] == Classify(reg, args[i])
  {
    Query(q.parts + seq(|args|, i requires 0 <= i < |args| => Classify(reg, args[i])))
  }

  /** The text of one fragment, as `build` maps it (the keyword check aside):
      word-like fragments verbatim, punctuation as one character, an
      identifier in backticks, a column definition led by its quoted name
      and its type. */
  function PartText(p: QueryPart): (r: string)
    ensures p.Keyword? || p.Raw? || p.Condition? || p.Literal? ==> r == p.value
    ensures p.LParen? || p.RParen? || p.Semicolon? || p.Comma? ==> |r| == 1 && r[0] in "();,"
    ensures p.LiteralIdentifier? && Unquoted(p.value) ==> Unquote(r) == Some(p.value)
    ensures p.ColumnDef? ==> Quote(p.name) + " " + p.valType <= r
  {
    match p
    case Keyword(v) => v
    case LParen => "("
    case RParen => ")"
    case Semicolon => ";"
    case Comma => ","
    case ColumnDef(name, valType, nullable, default) =>
      Quote(name) + " " + valType
      + (if nullable then "" else " NOT NULL")
      + (if default.Some? && default.value != "" then " DEFAULT " + default.value else "")
    case Raw(v) => v
    case Condition(v) => v
    case Literal(v) => v
    case LiteralIdentifier(v) => Quote(v)
  }

  /** `build` accepts a fragment unless it is a keyword whose upper-cased
      spelling is not registered. */
  function Accepted(reg: Registry, p: QueryPart): (b: bool)
    ensures !p.Keyword? ==> b
    ensures !b ==> ToUpper(p.value) !in reg.Keys
  {
    p.Keyword? ==> ToUpper(p.value) in reg
  }

  predicate AllAccepted(reg: Registry, parts: seq<QueryPart>) {
    forall i :: 0 <= i < |parts| ==> Accepted(reg, parts[i])
  }

  /** The text pieces of a fragment list, one per fragment, in order. */
  function Texts(parts: seq<QueryPart>): (r: seq<string>)
    ensures |r| == |parts|
  {
    seq(|parts|, i requires 0 <= i < |parts| => PartText(parts[i]))
  }

  /** Rendering fragments piecewise: the texts of a concatenation are the
      concatenated texts. */
  lemma TextsConcat(a: seq<QueryPart>, b: seq<QueryPart>)
    ensures Texts(a + b) == Texts(a) + Texts(b)
  {
    forall i | 0 <= i < |a + b|
      ensures Texts(a + b)[i] == (Texts(a) + Texts(b))[i]
    {
      if i >= |a| {
        assert (a + b)[i] == b[i - |a|];
      }
    }
  }

  /** The `map` step of `build`: renders fragments left to right and stops at
      the first rejected keyword. */
  function RenderParts(reg: Registry, parts: seq<QueryPart>): (r: Result<seq<string>, Error>)
    ensures r.Success? <==> AllAccepted(reg, parts)
    ensures r.Success? ==> r.value == Texts(parts)
    ensures r.Failure? ==> r.error == InvalidKeyword
  {
    if |parts| == 0 then Success([])
    else if !Accepted(reg, parts[0]) then Failure(InvalidKeyword)
    else
      var tail := RenderParts(reg, parts[1..]);
      assert Texts(parts) == [PartText(parts[0])] + Texts(parts[1..]);
      if tail.Failure? then tail
      else Success([PartText(parts[0])] + tail.value)
  }

  /** `build()`: the rendered pieces joined by single spaces, or the
      invalid-keyword error. */
  function Build(reg: Registry, q: Query): (r: Result<string, Error>)
    ensures r.Success? <==> AllAccepted(reg, q.parts)
    ensures r.Failure? ==> r.error == InvalidKeyword
    ensures r.Success? ==> r.value == Join(Texts(q.parts), " ")
  {
    var pieces :- RenderParts(reg, q.parts);
    Success(Join(pieces, " "))
  }

  /** A keyword fragment renders with its own spelling when its upper-cased
      form is registered, and fails otherwise. */
  lemma BuildKeyword(reg: Registry, v: string)
    ensures Build(reg, Query([Keyword(v)]))
         == if ToUpper(v) in reg then Success(v) else Failure(InvalidKeyword)
  {
  }

  /** Every fragment other than a keyword renders unconditionally: the four
      punctuation marks as themselves, raw text, conditions and literals
      verbatim, and an identifier in backticks (which read back to it when
      it holds no backtick itself). */
  lemma BuildSingle(reg: Registry, p: QueryPart)
    requires !p.Keyword?
    ensures Build(reg, Query([p])).Success?
    ensures p.LParen? ==> Build(reg, Query([p])).value == "("
    ensures p.RParen? ==> Build(reg, Query([p])).value == ")"
    ensures p.Semicolon? ==> Build(reg, Query([p])).value == ";"
    ensures p.Comma? ==> Build(reg, Query([p])).value == ","
    ensures p.Raw? || p.Condition? || p.Literal? ==> Build(reg, Query([p])).value == p.value
    ensures p.LiteralIdentifier? ==> Build(reg, Query([p])).value == Quote(p.value)
    ensures p.LiteralIdentifier? && Unquoted(p.value) ==> Unquote(Build(reg, Query([p])).value) == Some(p.value)
  {
    if p.LiteralIdentifier? && Unquoted(p.value) {
      UnquoteQuote(p.value);
    }
  }

  /** Rendering a concatenation renders the halves and joins them with one
      space: fragments keep their order and nothing is added or dropped. */
  lemma BuildConcat(reg: Registry, a: seq<QueryPart>, b: seq<QueryPart>)
    ensures Build(reg, Query(a + b)).Success?
        <==> Build(reg, Query(a)).Success? && Build(reg, Query(b)).Success?
    ensures |a| > 0 && |b| > 0 && Build(reg, Query(a + b)).Success? ==>
              Build(reg, Query(a + b)).value
              == Build(reg, Query(a)).value + " " + Build(reg, Query(b)).value
  {
    assert Texts(a + b) == Texts(a) + Texts(b);
    if AllAccepted(reg, a) && AllAccepted(reg, b) {
      assert AllAccepted(reg, a + b);
    }
    if AllAccepted(reg, a + b) {
      assert forall i :: 0 <= i < |a| ==> (a + b)[i] == a[i];
      assert forall i :: 0 <= i < |b| ==> (a + b)[|a| + i] == b[i];
    }
    if |a| > 0 && |b| > 0 {
      JoinConcat(Texts(a), Texts(b), " ");
    }
  }

  /** When no piece contains a space, cutting the rendered statement at
      spaces recovers exactly one piece per fragment, in fragment order. */
  lemma BuildSplit(reg: Registry, q: Query)
    requires AllAccepted(reg, q.parts) && |q.parts| > 0
    requires forall i :: 0 <= i < |q.parts| ==> ' ' !in PartText(q.parts[i])
    ensures Split(Build(reg, q).value, ' ') == Texts(q.parts)
  {
    SplitJoin(Texts(q.parts), ' ');
  }

  /** One keyword fragment per word. */
  function KeywordParts(words: seq<string>): (r: seq<QueryPart>)
    ensures |r| == |words|
    ensures forall i :: 0 <= i < |words| ==> r[i] == Keyword(words[i])
  {
    seq(|words|, i requires 0 <= i < |words| => Keyword(words[i]))
  }

  /** Upper-case keyword fragments pass the render check exactly when the
      registry holds every one of their words. */
  lemma KeywordPartsAccepted(reg: Registry, words: seq<string>)
    requires forall i :: 0 <= i < |words| ==> IsUpper(words[i])
    ensures AllAccepted(reg, KeywordParts(words)) <==> Seqs.Elems(words) <= reg.Keys
  {
    forall i | 0 <= i < |words|
      ensures Accepted(reg, KeywordParts(words)[i]) <==> words[i] in reg
    {
      UpperFixed(words[i]);
    }
  }

  /** Fragments pass the render check exactly when both halves do. */
  lemma AcceptedConcat(reg: Registry, a: seq<QueryPart>, b: seq<QueryPart>)
    ensures AllAccepted(reg, a + b) <==> AllAccepted(reg, a) && AllAccepted(reg, b)
  {
    BuildConcat(reg, a, b);
  }

  /** The expected rendering of `q` once fragments rendering as `t` are
      appended to it. */
  function Appended(reg: Registry, q: Query, t: string): Result<string, Error> {
    if |q.parts| == 0 then Success(t)
    else match Build(reg, q)
      case Success(s) => Success(s + " " + t)
      case Failure(e) => Failure(e)
  }

  /** Appending accepted fragments extends the rendering of the prefix by
      one space and the joined text of the new fragments. */
  lemma AppendRenders(reg: Registry, q: Query, suffix: seq<QueryPart>)
    requires |suffix| > 0 && AllAccepted(reg, suffix)
    ensures Build(reg, Query(q.parts + suffix)) == Appended(reg, q, Join(Texts(suffix), " "))
  {
    if |q.parts| == 0 {
      assert q.parts + suffix == suffix;
    } else {
      BuildConcat(reg, q.parts, suffix);
      if Build(reg, q).Failure? {
        assert Build(reg, Query(q.parts + suffix)).Failure?;
      }
    }
  }

  /** The text a push argument contributes. */
  function ArgText(a: PushArg): string {
    match a
    case Part(p) => PartText(p)
    case Bare(t) => t
  }

  /** A bare string renders as itself whether `push` made it a keyword or raw
      text, provided the registry is closed under upper-casing; so pushing
      onto a query extends its rendering by the joined argument texts. */
  lemma PushRenders(reg: Registry, q: Query, args: seq<PushArg>)
    requires UpperClosed(reg) && |args| > 0
    requires forall i :: 0 <= i < |args| && args[i].Part? ==> Accepted(reg, args[i].part)
    ensures Build(reg, Push(reg, q, args))
         == Appended(reg, q, Join(seq(|args|, i requires 0 <= i < |args| => ArgText(args[i])), " "))
  {
    var suffix := seq(|args|, i requires 0 <= i < |args| => Classify(reg, args[i]));
    assert Push(reg, q, args).parts == q.parts + suffix;
    assert Texts(suffix) == seq(|args|, i requires 0 <= i < |args| => ArgText(args[i]));
    AppendRenders(reg, q, suffix);
  }

  /** The argument of `select` / `from`: one string or an array of strings. */
  datatype Names = One(name: string) | Many(names: seq<string>)

  function NameList(n: Names): seq<string> {
    match n
    case One(s) => [s]
    case Many(ss) => ss
  }

  function Literals(names: seq<string>): (r: seq<QueryPart>)
    ensures |r| == |names|
    ensures forall i :: 0 <= i < |names| ==> r[i] == Literal(names[i])
  {
    seq(|names|, i requires 0 <= i < |names| => Literal(names[i]))
  }

  function Identifiers(names: seq<string>): (r: seq<QueryPart>)
    ensures |r| == |names|
    ensures forall i :: 0 <= i < |names| ==> r[i] == LiteralIdentifier(names[i])
  {
    seq(|names|, i requires 0 <= i < |names| => LiteralIdentifier(names[i]))
  }

  /** `select(columns)`: `SELECT`, then one literal per column, no commas. */
  function Select(q: Query, columns: Names): (r: Query)
    ensures |r.parts| == |q.parts| + 1 + |NameList(columns)|
    ensures r.parts[..|q.parts|] == q.parts
    ensures r.parts[|q.parts|] == Keyword("SELECT")
    ensures forall i :: 0 <= i < |NameList(columns)| ==>
              r.parts[|q.parts| + 1 + i] == Literal(NameList(columns)[i])
  {
    match columns
    case One(c) => Query(q.parts + [Keyword("SELECT"), Literal(c)])
    case Many(cs) => Query(q.parts + ([Keyword("SELECT")] + Literals(cs)))
  }

  /** `from(tables)`: `FROM`, then the string as a literal, or each array
      element as a quoted identifier. */
  function From(q: Query, tables: Names): (r: Query)
    ensures |r.parts| == |q.parts| + 1 + |NameList(tables)|
    ensures r.parts[..|q.parts|] == q.parts
    ensures r.parts[|q.parts|] == Keyword("FROM")
    ensures forall i :: 0 <= i < |NameList(tables)| ==>
              r.parts[|q.parts| + 1 + i]
              == (if tables.One? then Literal(tables.name) else LiteralIdentifier(tables.names[i]))
  {
    match tables
    case One(t) => Query(q.parts + [Keyword("FROM"), Literal(t)])
    case Many(ts) => Query(q.parts + ([Keyword("FROM")] + Identifiers(ts)))
  }

  /** A keyword followed by one operand fragment. */
  function KeywordThen(q: Query, kw: string, operand: QueryPart): (r: Query)
    ensures |r.parts| == |q.parts| + 2
    ensures r.parts[..|q.parts|] == q.parts
    ensures r.parts[|q.parts|] == Keyword(kw) && r.parts[|q.parts| + 1] == operand
  {
    Query(q.parts + [Keyword(kw), operand])
  }

  /** `where(cond)`. */
  function Where(q: Query, cond: string): (r: Query)
    ensures r.parts == q.parts + [Keyword("WHERE"), Condition(cond)]
  {
    KeywordThen(q, "WHERE", Condition(cond))
  }

  /** `and(cond)`. */
  function And(q: Query, cond: string): (r: Query)
    ensures r.parts == q.parts + [Keyword("AND"), Condition(cond)]
  {
    KeywordThen(q, "AND", Condition(cond))
  }

  /** `or(cond)`. */
  function Or(q: Query, cond: string): (r: Query)
    ensures r.parts == q.parts + [Keyword("OR"), Condition(cond)]
  {
    KeywordThen(q, "OR", Condition(cond))
  }

  /** `not(cond)`. */
  function Not(q: Query, cond: string): (r: Query)
    ensures r.parts == q.parts + [Keyword("NOT"), Condition(cond)]
  {
    KeywordThen(q, "NOT", Condition(cond))
  }

  /** `is(val)`. */
  function Is(q: Query, val: string): (r: Query)
    ensures r.parts == q.parts + [Keyword("IS"), Literal(val)]
  {
    KeywordThen(q, "IS", Literal(val))
  }

  /** `isNot(val)`. */
  function IsNot(q: Query, val: string): (r: Query)
    ensures r.parts == q.parts + [Keyword("IS"), Keyword("NOT"), Literal(val)]
  {
    KeywordThen(Query(q.parts + [Keyword("IS")]), "NOT", Literal(val))
  }

  /** `insertInto(table)`. */
  function InsertInto(q: Query, table: string): (r: Query)
    ensures r.parts == q.parts + [Keyword("INSERT"), Keyword("INTO"), Literal(table)]
  {
    KeywordThen(Query(q.parts + [Keyword("INSERT")]), "INTO", Literal(table))
  }

  /** `create()`: only the `CREATE` keyword. */
  function Create(q: Query): (r: Query)
    ensures r.parts == q.parts + [Keyword("CREATE")]
  {
    Query(q.parts + [Keyword("CREATE")])
  }

  /** `use(db)`: only the `USE` keyword; the database name is ignored. */
  function Use(q: Query, db: string): (r: Query)
    ensures r.parts == q.parts + [Keyword("USE")]
  {
    Query(q.parts + [Keyword("USE")])
  }

  /** A keyword the library emits passes the render check exactly when the
      registry holds it. */
  lemma UsedKeywordAccepted(reg: Registry, kw: string)
    requires kw in Used
    ensures Accepted(reg, Keyword(kw)) <==> kw in reg
  {
    UsedAreUpper();
  }

  /** A keyword and an operand fragment extend the rendering by the keyword,
      a space and the operand's text. */
  lemma KeywordThenRenders(reg: Registry, q: Query, kw: string, operand: QueryPart)
    requires Covers(reg) && kw in Used && Accepted(reg, operand)
    ensures Build(reg, KeywordThen(q, kw, operand)) == Appended(reg, q, kw + " " + PartText(operand))
  {
    UsedKeywordAccepted(reg, kw);
    var suffix := [Keyword(kw), operand];
    assert Texts(suffix) == [kw, PartText(operand)];
    assert Join([kw, PartText(operand)], " ") == kw + " " + PartText(operand) by {
      assert [kw, PartText(operand)][1..] == [PartText(operand)];
    }
    AppendRenders(reg, q, suffix);
  }

  /** Each condition helper extends the rendering by its keyword, a space
      and the condition text. */
  lemma ConditionHelpersRender(reg: Registry, q: Query, cond: string)
    requires Covers(reg)
    ensures Build(reg, Where(q, cond)) == Appended(reg, q, "WHERE " + cond)
    ensures Build(reg, And(q, cond)) == Appended(reg, q, "AND " + cond)
    ensures Build(reg, Or(q, cond)) == Appended(reg, q, "OR " + cond)
    ensures Build(reg, Not(q, cond)) == Appended(reg, q, "NOT " + cond)
  {
    KeywordThenRenders(reg, q, "WHERE", Condition(cond));
    KeywordThenRenders(reg, q, "AND", Condition(cond));
    KeywordThenRenders(reg, q, "OR", Condition(cond));
    KeywordThenRenders(reg, q, "NOT", Condition(cond));
    ConditionTexts(cond);
  }

  lemma ConditionTexts(cond: string)
    ensures "WHERE" + " " + cond == "WHERE " + cond
    ensures "AND" + " " + cond == "AND " + cond
    ensures "OR" + " " + cond == "OR " + cond
    ensures "NOT" + " " + cond == "NOT " + cond
  {
  }

  /** `is`, `isNot` and `insertInto` extend the rendering by their keywords
      and the verbatim value. */
  lemma ValueHelpersRender(reg: Registry, q: Query, val: string)
    requires Covers(reg)
    ensures Build(reg, Is(q, val)) == Appended(reg, q, "IS " + val)
    ensures Build(reg, IsNot(q, val)) == Appended(reg, q, "IS NOT " + val)
    ensures Build(reg, InsertInto(q, val)) == Appended(reg, q, "INSERT INTO " + val)
  {
    KeywordThenRenders(reg, q, "IS", Literal(val));
    TwoKeywordsThenRenders(reg, q, "IS", "NOT", val);
    TwoKeywordsThenRenders(reg, q, "INSERT", "INTO", val);
    ValueTexts(val);
  }

  lemma ValueTexts(val: string)
    ensures "IS" + " " + val == "IS " + val
    ensures "IS" + " " + "NOT" + " " + val == "IS NOT " + val
    ensures "INSERT" + " " + "INTO" + " " + val == "INSERT INTO " + val
  {
  }

  /** Two keywords and a literal extend the rendering by the three texts
      separated by single spaces. */
  lemma TwoKeywordsThenRenders(reg: Registry, q: Query, k1: string, k2: string, val: string)
    requires Covers(reg) && k1 in Used && k2 in Used
    ensures Build(reg, Query(q.parts + [Keyword(k1), Keyword(k2), Literal(val)]))
         == Appended(reg, q, k1 + " " + k2 + " " + val)
  {
    UsedKeywordAccepted(reg, k1);
    UsedKeywordAccepted(reg, k2);
    var suffix := [Keyword(k1), Keyword(k2), Literal(val)];
    assert Texts(suffix) == [k1, k2, val];
    JoinThree([k1, k2, val], " ");
    AppendRenders(reg, q, suffix);
  }

  function QuoteAll(names: seq<string>): (r: seq<string>)
    ensures |r| == |names|
    ensures forall i :: 0 <= i < |names| ==> r[i] == Quote(names[i])
  {
    seq(|names|, i requires 0 <= i < |names| => Quote(names[i]))
  }

  /** `select` renders `SELECT` and the column texts separated by single
      spaces, with no commas. */
  lemma SelectRenders(reg: Registry, q: Query, columns: Names)
    requires Covers(reg)
    ensures Build(reg, Select(q, columns)) == Appended(reg, q, Join(["SELECT"] + NameList(columns), " "))
  {
    match columns
    case One(c) =>
      KeywordThenRenders(reg, q, "SELECT", Literal(c));
      JoinTwo("SELECT", c, " ");
      assert ["SELECT"] + NameList(columns) == ["SELECT", c];
    case Many(cs) =>
      UsedKeywordAccepted(reg, "SELECT");
      LiteralsAccepted(reg, cs);
      KeywordListSuffix(reg, "SELECT", Literals(cs), cs);
      AppendRenders(reg, q, [Keyword("SELECT")] + Literals(cs));
  }

  lemma LiteralsAccepted(reg: Registry, names: seq<string>)
    ensures forall i :: 0 <= i < |names| ==>
              Accepted(reg, Literals(names)[i]) && PartText(Literals(names)[i]) == names[i]
  {
  }

  lemma IdentifiersAccepted(reg: Registry, names: seq<string>)
    ensures forall i :: 0 <= i < |names| ==>
              Accepted(reg, Identifiers(names)[i]) && PartText(Identifiers(names)[i]) == QuoteAll(names)[i]
  {
  }

  /** A keyword followed by accepted fragments with the given texts. */
  lemma KeywordListSuffix(reg: Registry, kw: string, ops: seq<QueryPart>, texts: seq<string>)
    requires Accepted(reg, Keyword(kw))
    requires |ops| == |texts|
    requires forall i :: 0 <= i < |ops| ==> Accepted(reg, ops[i]) && PartText(ops[i]) == texts[i]
    ensures AllAccepted(reg, [Keyword(kw)] + ops)
    ensures Texts([Keyword(kw)] + ops) == [kw] + texts
  {
    var suffix := [Keyword(kw)] + ops;
    forall i | 0 <= i < |suffix|
      ensures Accepted(reg, suffix[i])
      ensures PartText(suffix[i]) == ([kw] + texts)[i]
    {
      if i > 0 {
        assert suffix[i] == ops[i - 1];
      }
    }
  }

  /** `from` renders `FROM` and then the string verbatim, or each array
      element quoted, separated by single spaces. */
  lemma FromRenders(reg: Registry, q: Query, tables: Names)
    requires Covers(reg)
    ensures tables.One? ==> Build(reg, From(q, tables)) == Appended(reg, q, "FROM " + tables.name)
    ensures tables.Many? ==>
              Build(reg, From(q, tables)) == Appended(reg, q, Join(["FROM"] + QuoteAll(tables.names), " "))
  {
    if tables.One? {
      KeywordThenRenders(reg, q, "FROM", Literal(tables.name));
      assert "FROM" + " " + tables.name == "FROM " + tables.name;
    } else {
      FromManyRenders(reg, q, tables.names);
    }
  }

  lemma FromManyRenders(reg: Registry, q: Query, ts: seq<string>)
    requires Covers(reg)
    ensures Build(reg, From(q, Many(ts))) == Appended(reg, q, Join(["FROM"] + QuoteAll(ts), " "))
  {
    UsedKeywordAccepted(reg, "FROM");
    IdentifiersAccepted(reg, ts);
    KeywordListSuffix(reg, "FROM", Identifiers(ts), QuoteAll(ts));
    AppendRenders(reg, q, [Keyword("FROM")] + Identifiers(ts));
  }

  /** `create()` and `use(db)` append one keyword; `use` renders the same
      whatever database name it is given. */
  lemma KeywordHelpersRender(reg: Registry, q: Query, db: string, other: string)
    requires Covers(reg)
    ensures Build(reg, Create(q)) == Appended(reg, q, "CREATE")
    ensures Build(reg, Use(q, db)) == Appended(reg, q, "USE")
    ensures Use(q, db) == Use(q, other)
  {
    UsedKeywordAccepted(reg, "CREATE");
    UsedKeywordAccepted(reg, "USE");
    AppendRenders(reg, q, [Keyword("CREATE")]);
    AppendRenders(reg, q, [Keyword("USE")]);
  }
}
