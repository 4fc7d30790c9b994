/**
  The text of the SQL predicates: values are quoted with every quote doubled, and
  each predicate is built in a buffer whose capacity is computed beforehand.
 */
module SqlPredicates {
  import opened Wrappers
  import opened Sequences
  import opened PathFilters

  const QUOTE: char := '\''

  /** Every quote doubled. */
  function Escaped(s: string): string {
    if s == [] then []
    else (if s[0] == QUOTE then [QUOTE, QUOTE] else [s[0]]) + Escaped(s[1..])
  }

  function CountQuotes(s: string): nat {
    if s == [] then 0 else (if s[0] == QUOTE then 1 else 0) + CountQuotes(s[1..])
  }

  function EscapedSqlLiteralLen(s: string): nat { |s| + CountQuotes(s) }

  lemma {:induction false} EscapedLen(s: string)
    ensures |Escaped(s)| == EscapedSqlLiteralLen(s)
  {
    if s != [] { EscapedLen(s[1..]); }
  }

  function FindQuote(s: string): (r: nat)
    ensures r <= |s| && QUOTE !in s[..r] && (r < |s| ==> s[r] == QUOTE)
  {
    if s == [] || s[0] == QUOTE then 0
    else
      assert s[..1 + FindQuote(s[1..])] == [s[0]] + s[1..][..FindQuote(s[1..])];
      1 + FindQuote(s[1..])
  }

  lemma {:induction false} EscapedPlain(a: string, rest: string)
    requires QUOTE !in a
    ensures Escaped(a + rest) == a + Escaped(rest)
  {
    if a == [] {
      assert a + rest == rest;
    } else {
      assert (a + rest)[1..] == a[1..] + rest;
      EscapedPlain(a[1..], rest);
    }
  }

  method PushEscapedSqlLiteral(output: string, value: string) returns (r: string)
    ensures r == output + Escaped(value)
  {
    r := output;
    var remainder := value;
    var index := FindQuote(remainder);
    while index < |remainder|
      invariant index == FindQuote(remainder)
      invariant r + Escaped(remainder) == output + Escaped(value)
      decreases |remainder|
    {
      EscapedAtQuote(remainder, index);
      Regroup(r, remainder[..index], [QUOTE, QUOTE], Escaped(remainder[index + 1..]));
      r := r + remainder[..index];
      r := r + [QUOTE, QUOTE];
      remainder := remainder[index + 1..];
      index := FindQuote(remainder);
    }
    assert remainder[..index] == remainder == remainder + [];
    EscapedPlain(remainder, []);
    r := r + remainder;
  }

  lemma EscapedAtQuote(s: string, at: nat)
    requires at < |s| && QUOTE !in s[..at] && s[at] == QUOTE
    ensures Escaped(s) == s[..at] + [QUOTE, QUOTE] + Escaped(s[at + 1..])
  {
    hide Escaped;
    SplitAround(s, at);
    EscapedPlain(s[..at], [QUOTE] + s[at + 1..]);
    EscapedQuote(s[at + 1..]);
    Join3(s[..at], [QUOTE, QUOTE], Escaped(s[at + 1..]));
  }

  lemma SplitAround(s: string, at: nat)
    requires at < |s|
    ensures s == s[..at] + ([s[at]] + s[at + 1..])
  {
  }

  lemma EscapedQuote(rest: string)
    ensures Escaped([QUOTE] + rest) == [QUOTE, QUOTE] + Escaped(rest)
  {
    assert ([QUOTE] + rest)[1..] == rest;
  }

  // --- Reading a predicate back ---------------------------------------------

  datatype Token = Symbol(c: char) | Literal(value: string)

  /** SQL lexing: quotes delimit a literal, in which a doubled quote stands for one. */
  function Lex(s: string): seq<Token>
    decreases |s|, 0
  {
    if s == [] then []
    else if s[0] == QUOTE then InLiteral(s[1..], [])
    else [Symbol(s[0])] + Lex(s[1..])
  }

  function InLiteral(s: string, value: string): seq<Token>
    decreases |s|, 1
  {
    if s == [] then [Literal(value)]
    else if s[0] != QUOTE then InLiteral(s[1..], value + [s[0]])
    else if |s| >= 2 && s[1] == QUOTE then InLiteral(s[2..], value + [QUOTE])
    else [Literal(value)] + Lex(s[1..])
  }

  function Symbols(s: string): seq<Token> {
    if s == [] then [] else [Symbol(s[0])] + Symbols(s[1..])
  }

  function Quoted(s: string): string { [QUOTE] + Escaped(s) + [QUOTE] }

  predicate StartsWithQuote(s: string) { s != [] && s[0] == QUOTE }

  lemma {:induction false} LexSymbols(a: string, rest: string)
    requires QUOTE !in a
    ensures Lex(a + rest) == Symbols(a) + Lex(rest)
  {
    if a == [] {
      assert a + rest == rest;
    } else {
      assert (a + rest)[1..] == a[1..] + rest;
      LexSymbols(a[1..], rest);
    }
  }

  lemma {:induction false} LexEscaped(s: string, value: string, rest: string)
    requires !StartsWithQuote(rest)
    ensures InLiteral(Escaped(s) + [QUOTE] + rest, value) == [Literal(value + s)] + Lex(rest)
  {
    var text := Escaped(s) + [QUOTE] + rest;
    if s == [] {
      assert text == [QUOTE] + rest && text[1..] == rest;
      assert value + s == value;
    } else {
      LexEscaped(s[1..], value + [s[0]], rest);
      assert value + [s[0]] + s[1..] == value + s by { assert s == [s[0]] + s[1..]; }
      var tail := Escaped(s[1..]) + [QUOTE] + rest;
      if s[0] == QUOTE {
        assert text == [QUOTE, QUOTE] + tail;
        assert text[2..] == tail;
      } else {
        assert text == [s[0]] + tail;
        assert text[1..] == tail;
      }
    }
  }

  /** A quoted value lexes back to one literal, the value itself, whatever quotes it holds. */
  lemma QuotedLexesBack(s: string, rest: string)
    requires !StartsWithQuote(rest)
    ensures Lex(Quoted(s) + rest) == [Literal(s)] + Lex(rest)
  {
    LexEscaped(s, [], rest);
    assert (Quoted(s) + rest)[1..] == Escaped(s) + [QUOTE] + rest;
    assert [] + s == s;
  }

  // --- The text of a condition ----------------------------------------------

  function ListText(vs: seq<string>): string {
    if vs == [] then ""
    else if |vs| == 1 then Quoted(vs[0])
    else ListText(vs[..|vs| - 1]) + ", " + Quoted(vs[|vs| - 1])
  }

  function SqlText(c: Condition): string {
    match c
    case Equal(k, v) => k + " = " + Quoted(v)
    case AtLeast(k, v) => k + " >= " + Quoted(v)
    case Below(k, v) => k + " < " + Quoted(v)
    case OneOf(k, vs) => k + " IN (" + ListText(vs) + ")"
    case Both(a, b) => SqlText(a) + " AND " + SqlText(b)
    case Either(a, b) => SqlText(a) + " OR " + SqlText(b)
    case Group(a) => "(" + SqlText(a) + ")"
  }

  function ListTokens(vs: seq<string>): seq<Token> {
    if vs == [] then []
    else if |vs| == 1 then [Literal(vs[0])]
    else ListTokens(vs[..|vs| - 1]) + Symbols(", ") + [Literal(vs[|vs| - 1])]
  }

  function Tokens(c: Condition): seq<Token> {
    match c
    case Equal(k, v) => Symbols(k + " = ") + [Literal(v)]
    case AtLeast(k, v) => Symbols(k + " >= ") + [Literal(v)]
    case Below(k, v) => Symbols(k + " < ") + [Literal(v)]
    case OneOf(k, vs) => Symbols(k + " IN (") + ListTokens(vs) + Symbols(")")
    case Both(a, b) => Tokens(a) + Symbols(" AND ") + Tokens(b)
    case Either(a, b) => Tokens(a) + Symbols(" OR ") + Tokens(b)
    case Group(a) => Symbols("(") + Tokens(a) + Symbols(")")
  }

  predicate PlainColumns(c: Condition) {
    match c
    case Equal(k, _) => QUOTE !in k
    case AtLeast(k, _) => QUOTE !in k
    case Below(k, _) => QUOTE !in k
    case OneOf(k, _) => QUOTE !in k
    case Both(a, b) => PlainColumns(a) && PlainColumns(b)
    case Either(a, b) => PlainColumns(a) && PlainColumns(b)
    case Group(a) => PlainColumns(a)
  }

  function Max(a: nat, b: nat): nat { if a < b then b else a }

  function Depth(c: Condition): nat {
    match c
    case Both(a, b) => 1 + Max(Depth(a), Depth(b))
    case Either(a, b) => 1 + Max(Depth(a), Depth(b))
    case Group(a) => 1 + Depth(a)
    case _ => 0
  }

  lemma ComparisonLexesBack(k: string, op: string, v: string, rest: string)
    requires QUOTE !in k && QUOTE !in op && !StartsWithQuote(rest)
    ensures Lex(k + op + Quoted(v) + rest) == Symbols(k + op) + [Literal(v)] + Lex(rest)
  {
    hide Lex, Quoted;
    assert k + op + Quoted(v) + rest == (k + op) + (Quoted(v) + rest);
    LexSymbols(k + op, Quoted(v) + rest);
    QuotedLexesBack(v, rest);
    assert Symbols(k + op) + ([Literal(v)] + Lex(rest)) == Symbols(k + op) + [Literal(v)] + Lex(rest);
  }

  lemma {:induction false} ListLexesBack(vs: seq<string>, rest: string)
    requires !StartsWithQuote(rest)
    ensures Lex(ListText(vs) + rest) == ListTokens(vs) + Lex(rest)
  {
    hide Lex, Quoted;
    if vs == [] {
      assert ListText(vs) + rest == rest;
    } else if |vs| == 1 {
      QuotedLexesBack(vs[0], rest);
    } else {
      var front, last := vs[..|vs| - 1], vs[|vs| - 1];
      var tail := Quoted(last) + rest;
      assert ListText(vs) + rest == ListText(front) + (", " + tail);
      ListLexesBack(front, ", " + tail);
      LexSymbols(", ", tail);
      QuotedLexesBack(last, rest);
      assert ListTokens(front) + (Symbols(", ") + ([Literal(last)] + Lex(rest))) == ListTokens(vs) + Lex(rest);
    }
  }

  /** The text of a condition lexes back to its tokens: no value can end its literal early or join the syntax. */
  lemma {:induction false} ConditionLexesBack(c: Condition, rest: string)
    requires PlainColumns(c) && !StartsWithQuote(rest)
    ensures Lex(SqlText(c) + rest) == Tokens(c) + Lex(rest)
    decreases Depth(c), 0
  {
    hide Lex, Quoted, ListText, ListTokens, Symbols;
    match c
    case Equal(k, v) => ComparisonLexesBack(k, " = ", v, rest);
    case AtLeast(k, v) => ComparisonLexesBack(k, " >= ", v, rest);
    case Below(k, v) => ComparisonLexesBack(k, " < ", v, rest);
    case OneOf(k, vs) => OneOfLexesBack(k, vs, rest);
    case Both(a, b) => ConnectedLexesBack(a, " AND ", b, rest);
    case Either(a, b) => ConnectedLexesBack(a, " OR ", b, rest);
    case Group(a) => GroupLexesBack(a, rest);
  }

  lemma {:induction false} JoinLexesBack(a: Condition, op: string, rest: string)
    requires PlainColumns(a) && op != [] && QUOTE !in op
    ensures Lex(SqlText(a) + (op + rest)) == Tokens(a) + (Symbols(op) + Lex(rest))
    decreases Depth(a), 1
  {
    hide Lex, SqlText, Tokens;
    ConditionLexesBack(a, op + rest);
    LexSymbols(op, rest);
  }

  lemma {:induction false} ConnectedLexesBack(a: Condition, op: string, b: Condition, rest: string)
    requires PlainColumns(a) && PlainColumns(b) && op != [] && QUOTE !in op && !StartsWithQuote(rest)
    ensures Lex(SqlText(a) + op + SqlText(b) + rest) == Tokens(a) + Symbols(op) + Tokens(b) + Lex(rest)
    decreases Max(Depth(a), Depth(b)), 2
  {
    hide Lex, SqlText, Tokens;
    ConditionLexesBack(b, rest);
    JoinLexesBack(a, op, SqlText(b) + rest);
    Join4(SqlText(a), op, SqlText(b), rest);
    Join4(Tokens(a), Symbols(op), Tokens(b), Lex(rest));
  }

  lemma {:induction false} GroupLexesBack(a: Condition, rest: string)
    requires PlainColumns(a) && !StartsWithQuote(rest)
    ensures Lex("(" + SqlText(a) + ")" + rest) == Symbols("(") + Tokens(a) + Symbols(")") + Lex(rest)
    decreases Depth(a), 2
  {
    hide Lex, SqlText, Tokens;
    JoinLexesBack(a, ")", rest);
    LexSymbols("(", SqlText(a) + (")" + rest));
    Join4("(", SqlText(a), ")", rest);
    Join4(Symbols("("), Tokens(a), Symbols(")"), Lex(rest));
  }

  lemma OneOfLexesBack(k: string, vs: seq<string>, rest: string)
    requires QUOTE !in k && !StartsWithQuote(rest)
    ensures Lex(SqlText(OneOf(k, vs)) + rest) == Tokens(OneOf(k, vs)) + Lex(rest)
  {
    hide Lex, Quoted, ListText, ListTokens;
    var open := k + " IN (";
    assert SqlText(OneOf(k, vs)) + rest == open + (ListText(vs) + (")" + rest));
    LexSymbols(open, ListText(vs) + (")" + rest));
    ListLexesBack(vs, ")" + rest);
    LexSymbols(")", rest);
    assert Symbols(open) + (ListTokens(vs) + (Symbols(")") + Lex(rest))) == Tokens(OneOf(k, vs)) + Lex(rest);
  }

  lemma PredicateLexesBack(c: Condition)
    requires PlainColumns(c)
    ensures Lex(SqlText(c)) == Tokens(c)
  {
    hide SqlText, Tokens;
    ConditionLexesBack(c, []);
    assert SqlText(c) + [] == SqlText(c);
  }

  // --- Building the predicates ----------------------------------------------

  function LiteralsLen(vs: seq<string>): nat {
    if vs == [] then 0 else LiteralsLen(vs[..|vs| - 1]) + EscapedSqlLiteralLen(vs[|vs| - 1]) + 2
  }

  lemma QuotedLen(s: string)
    ensures |Quoted(s)| == EscapedSqlLiteralLen(s) + 2
  {
    EscapedLen(s);
  }

  lemma {:induction false} ListLen(vs: seq<string>)
    ensures |ListText(vs)| == LiteralsLen(vs) + if vs == [] then 0 else 2 * (|vs| - 1)
  {
    hide Quoted, EscapedSqlLiteralLen;
    if vs != [] {
      ListLen(vs[..|vs| - 1]);
      QuotedLen(vs[|vs| - 1]);
    }
  }

  function DeletionCondition(root: string, paths: seq<string>): Condition {
    Both(Equal("root", root), if |paths| == 1 then Equal("path", paths[0]) else OneOf("path", paths))
  }

  /** The condition deletes the rows of the given paths of the workspace and no others. */
  lemma DeletionSelects(root: string, paths: seq<string>, row: Row)
    ensures Selects(DeletionCondition(root, paths), row) <==> row.root == root && row.path in paths
  {
  }

  lemma {:induction false} EscapedTail(s: string, tail: string)
    requires QUOTE !in tail
    ensures Escaped(s + tail) == Escaped(s) + tail
  {
    if s == [] {
      EscapedPlain(tail, []);
      assert s + tail == tail == tail + [];
    } else {
      assert (s + tail)[1..] == s[1..] + tail;
      EscapedTail(s[1..], tail);
    }
  }

  /** Pushes `column op 'value'`; `suffix` goes into the literal as it is. */
  method PushComparison(output: string, column: string, op: string, value: string, suffix: string) returns (r: string)
    requires QUOTE !in suffix
    ensures r == output + (column + op + Quoted(value + suffix))
    ensures |r| == |output| + |column| + |op| + EscapedSqlLiteralLen(value) + |suffix| + 2
  {
    hide Escaped, EscapedSqlLiteralLen;
    EscapedLen(value);
    EscapedTail(value, suffix);
    r := output + (column + op + [QUOTE]);
    r := PushEscapedSqlLiteral(r, value);
    r := r + suffix + [QUOTE];
    Join4([QUOTE], Escaped(value), suffix, [QUOTE]);
    assert r == output + ((column + op) + ([QUOTE] + (Escaped(value) + suffix) + [QUOTE]));
  }

  method PushEqual(output: string, column: string, value: string) returns (r: string)
    ensures r == output + SqlText(Equal(column, value))
    ensures |r| == |output| + |column| + EscapedSqlLiteralLen(value) + 5
  {
    hide EscapedSqlLiteralLen, Quoted;
    r := PushComparison(output, column, " = ", value, "");
    assert value + "" == value;
  }

  method DeletePathsPredicate(root: string, paths: seq<string>) returns (sql: string, capacity: nat)
    ensures sql == SqlText(DeletionCondition(root, paths))
    ensures Lex(sql) == Tokens(DeletionCondition(root, paths))
    ensures |sql| == capacity
  {
    hide Lex, Tokens, Quoted, EscapedSqlLiteralLen;
    DeletionColumns(root, paths);
    PredicateLexesBack(DeletionCondition(root, paths));
    var rootLen := EscapedSqlLiteralLen(root);
    sql := PushEqual("", "root", root);
    assert sql == SqlText(Equal("root", root));
    sql := sql + " AND ";
    if |paths| == 1 {
      capacity := |"root = '' AND path = ''"| + rootLen + EscapedSqlLiteralLen(paths[0]);
      sql := PushEqual(sql, "path", paths[0]);
    } else {
      ListLen(paths);
      capacity := |"root = '' AND path IN ()"| + rootLen + LiteralsLen(paths)
        + (if paths == [] then 0 else |paths| - 1) * |", "|;
      ghost var front := sql;
      sql := sql + ("path" + " IN (");
      sql := PushList(sql, paths);
      sql := sql + ")";
      Join4(front, "path" + " IN (", ListText(paths), ")");
      Join3("path" + " IN (", ListText(paths), ")");
    }
  }

  lemma DeletionColumns(root: string, paths: seq<string>)
    ensures PlainColumns(DeletionCondition(root, paths))
  {
    assert QUOTE !in "root" && QUOTE !in "path";
  }

  method PushQuoted(output: string, value: string) returns (r: string)
    ensures r == output + Quoted(value)
  {
    hide Escaped;
    r := output + [QUOTE];
    r := PushEscapedSqlLiteral(r, value);
    r := r + [QUOTE];
    Join4(output, [QUOTE], Escaped(value), [QUOTE]);
    Join3([QUOTE], Escaped(value), [QUOTE]);
  }

  method PushList(output: string, paths: seq<string>) returns (r: string)
    ensures r == output + ListText(paths)
  {
    hide Quoted;
    r := output;
    for index := 0 to |paths|
      invariant r == output + ListText(paths[..index])
    {
      if index > 0 { r := r + ", "; }
      r := PushQuoted(r, paths[index]);
      ListStep(paths, index);
      if index > 0 { Join4(output, ListText(paths[..index]), ", ", Quoted(paths[index])); }
    }
    assert paths[..|paths|] == paths;
  }

  lemma ListStep(paths: seq<string>, i: nat)
    requires i < |paths|
    ensures ListText(paths[..i + 1]) ==
            if i > 0 then ListText(paths[..i]) + ", " + Quoted(paths[i]) else Quoted(paths[i])
  {
    assert paths[..i + 1][..i] == paths[..i];
  }

  function FilterCondition(f: PathFilter): Condition
    requires !f.Workspace?
  {
    if f.OneFile? then Equal("path", f.path) else DirectoryCondition(f.path)
  }

  function PathFilterSqlLen(f: PathFilter): Option<nat> {
    match f
    case Workspace => None
    case OneFile(p) => Some(|"path = ''"| + EscapedSqlLiteralLen(p))
    case Directory(d) =>
      Some(|"(path = '' OR (path >= '' AND path < ''))"| + EscapedSqlLiteralLen(d) * 3 + |"/0"|)
  }

  method PushPathFilterSql(sql: string, f: PathFilter) returns (r: string)
    ensures r == sql + if f.Workspace? then "" else " AND " + SqlText(FilterCondition(f))
    ensures |r| == |sql| + if PathFilterSqlLen(f).None? then 0 else |" AND "| + PathFilterSqlLen(f).value
  {
    hide Quoted, EscapedSqlLiteralLen;
    r := sql;
    match f
    case Workspace =>
    case OneFile(p) =>
      r := r + " AND ";
      r := PushEqual(r, "path", p);
      Join3(sql, " AND ", SqlText(Equal("path", p)));
    case Directory(d) =>
      r := r + " AND ";
      r := PushDirectory(r, d);
      Join3(sql, " AND ", SqlText(DirectoryCondition(d)));
  }

  method PushDirectory(output: string, d: string) returns (r: string)
    ensures r == output + SqlText(DirectoryCondition(d))
    ensures |r| == |output| + |"(path = '' OR (path >= '' AND path < ''))"| + EscapedSqlLiteralLen(d) * 3 + |"/0"|
  {
    hide Quoted, EscapedSqlLiteralLen;
    r := PushEqual("(", "path", d);
    r := r + " OR ";
    var inner := PushComparison("(", "path", " >= ", d, "/");
    inner := inner + " AND ";
    inner := PushComparison(inner, "path", " < ", d, "0");
    inner := inner + ")";
    DirectoryText(d);
    assert inner == "(" + SqlText(AtLeast("path", d + "/")) + " AND " + SqlText(Below("path", d + "0")) + ")";
    r := output + (r + inner + ")");
  }

  lemma DirectoryText(d: string)
    ensures SqlText(DirectoryCondition(d)) ==
            "(" + SqlText(Equal("path", d)) + " OR " +
            ("(" + SqlText(AtLeast("path", d + "/")) + " AND " + SqlText(Below("path", d + "0")) + ")") + ")"
  {
    hide Quoted;
    var low, high := AtLeast("path", d + "/"), Below("path", d + "0");
    Join4("(", SqlText(low), " AND ", SqlText(high));
    assert SqlText(Both(low, high)) == SqlText(low) + " AND " + SqlText(high);
    GroupText(Both(low, high));
    var e := Either(Equal("path", d), Group(Both(low, high)));
    assert SqlText(e) == SqlText(Equal("path", d)) + " OR " + SqlText(Group(Both(low, high)));
    GroupText(e);
    hide SqlText;
    Join4("(", SqlText(Equal("path", d)), " OR ", SqlText(Group(Both(low, high))));
    Join3("(", SqlText(low), " AND " + SqlText(high));
    Join3(SqlText(low), " AND ", SqlText(high));
    Join3(SqlText(Equal("path", d)), " OR ", SqlText(Group(Both(low, high))));
  }

  lemma GroupText(c: Condition)
    ensures SqlText(Group(c)) == "(" + SqlText(c) + ")"
  {
  }

  function SearchCondition(root: string, f: PathFilter, language: Option<string>): Condition {
    var inRoot := Equal("root", root);
    var inScope := if f.Workspace? then inRoot else Both(inRoot, FilterCondition(f));
    if language.None? then inScope else Both(inScope, Equal("language", language.value))
  }

  /** The language to search for: trimmed, and none when nothing is left. `trim` is that of the string library. */
  function WantedLanguage(given: Option<string>, trim: string -> string): Option<string> {
    if given.None? || trim(given.value) == "" then None else Some(trim(given.value))
  }

  method BuildFilterPredicate(root: string, f: PathFilter, given: Option<string>, trim: string -> string)
    returns (sql: string, capacity: nat)
    ensures sql == SqlText(SearchCondition(root, f, WantedLanguage(given, trim)))
    ensures Lex(sql) == Tokens(SearchCondition(root, f, WantedLanguage(given, trim)))
    ensures |sql| == capacity
  {
    var language := WantedLanguage(given, trim);
    hide WantedLanguage;
    hide Lex, Tokens, Quoted, EscapedSqlLiteralLen, FilterCondition, PathFilterSqlLen;
    SearchColumns(root, f, language);
    PredicateLexesBack(SearchCondition(root, f, language));
    var pathFilterLen := PathFilterSqlLen(f);
    capacity := |"root = ''"| + EscapedSqlLiteralLen(root)
      + (if pathFilterLen.None? then 0 else |" AND "| + pathFilterLen.value)
      + (if language.None? then 0 else |" AND language = ''"| + EscapedSqlLiteralLen(language.value));
    sql := PushEqual("", "root", root);
    assert sql == SqlText(Equal("root", root));
    PathFilterLenKind(f);
    sql := PushPathFilterSql(sql, f);
    ghost var inRoot := Equal("root", root);
    ghost var inScope := if f.Workspace? then inRoot else Both(inRoot, FilterCondition(f));
    if !f.Workspace? {
      Join3(SqlText(inRoot), " AND ", SqlText(FilterCondition(f)));
      assert SqlText(inScope) == SqlText(inRoot) + " AND " + SqlText(FilterCondition(f));
    }
    assert sql == SqlText(inScope);
    if language.Some? {
      sql := sql + " AND ";
      sql := PushEqual(sql, "language", language.value);
      assert SqlText(Both(inScope, Equal("language", language.value))) ==
        SqlText(inScope) + " AND " + SqlText(Equal("language", language.value));
    }
  }

  lemma PathFilterLenKind(f: PathFilter)
    ensures PathFilterSqlLen(f).None? <==> f.Workspace?
  {
  }

  lemma ColumnNames()
    ensures QUOTE !in "root" && QUOTE !in "path" && QUOTE !in "language"
  {
    assert forall k :: 0 <= k < 4 ==> "root"[k] != QUOTE && "path"[k] != QUOTE;
    assert forall k :: 0 <= k < 8 ==> "language"[k] != QUOTE;
  }

  lemma DirectoryColumns(d: string)
    ensures PlainColumns(DirectoryCondition(d))
  {
    ColumnNames();
    var low, high := AtLeast("path", d + "/"), Below("path", d + "0");
    assert PlainColumns(low) && PlainColumns(high);
    assert PlainColumns(Both(low, high));
    assert PlainColumns(Group(Both(low, high)));
    assert PlainColumns(Equal("path", d));
    assert PlainColumns(Either(Equal("path", d), Group(Both(low, high))));
  }

  lemma SearchColumns(root: string, f: PathFilter, language: Option<string>)
    ensures PlainColumns(SearchCondition(root, f, language))
  {
    hide DirectoryCondition;
    ColumnNames();
    if f.Directory? { DirectoryColumns(f.path); }
    var inScope := if f.Workspace? then Equal("root", root) else Both(Equal("root", root), FilterCondition(f));
    assert PlainColumns(Equal("root", root));
    assert PlainColumns(inScope);
  }

  /** The predicate of a search keeps exactly the rows of the workspace, the scope and the language. */
  lemma SearchSelects(root: string, f: PathFilter, language: Option<string>, row: Row)
    ensures Selects(SearchCondition(root, f, language), row) <==>
            row.root == root && f.Contains(row.path) && (language.Some? ==> row.language == language.value)
  {
    hide DirectoryCondition;
    SqlAgrees(f, row);
    assert Selects(Equal("root", root), row) <==> row.root == root;
    var inScope := if f.Workspace? then Equal("root", root) else Both(Equal("root", root), FilterCondition(f));
    if !f.Workspace? {
      assert Selects(FilterCondition(f), row) <==> SqlKeeps(f, row);
      assert Selects(inScope, row) <==> Selects(Equal("root", root), row) && Selects(FilterCondition(f), row);
    }
    assert Selects(inScope, row) <==> row.root == root && f.Contains(row.path);
    if language.Some? { assert Selects(Equal("language", language.value), row) <==> row.language == language.value; }
  }
}
