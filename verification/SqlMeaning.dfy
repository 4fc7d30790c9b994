/**
  What the text of a predicate selects: SQL read the way a database reads it, with
  AND binding closer than OR. The predicates built as text select exactly the rows
  their conditions describe.
 */
module SqlMeaning {
  import opened Wrappers
  import opened Sequences
  import opened PathFilters
  import opened SqlPredicates

  // --- Reading a predicate --------------------------------------------------

  const AND: seq<Token> := Symbols(" AND ")
  const OR: seq<Token> := Symbols(" OR ")
  const CLOSE: Token := Symbol(')')

  predicate At(ts: seq<Token>, word: seq<Token>) { |word| <= |ts| && ts[..|word|] == word }

  predicate IsLetter(t: Token) { t.Symbol? && 'a' <= t.c <= 'z' }

  /** The column name at the front. */
  function NameAt(ts: seq<Token>): (name: string)
    ensures |name| <= |ts|
  {
    if ts == [] || !IsLetter(ts[0]) then "" else [ts[0].c] + NameAt(ts[1..])
  }

  /** A disjunction: its value on the row and what follows it; `None` for what is no predicate. */
  function ReadOr(ts: seq<Token>, row: Row): (r: Option<(bool, seq<Token>)>)
    ensures r.Some? ==> |r.value.1| < |ts|
    decreases |ts|, 3
  {
    match ReadAnd(ts, row)
    case None => None
    case Some((v, rest)) => OrThen(v, rest, row)
  }

  function OrThen(v: bool, rest: seq<Token>, row: Row): (r: Option<(bool, seq<Token>)>)
    ensures r.Some? ==> |r.value.1| <= |rest|
    decreases |rest|, 4
  {
    if At(rest, OR) then
      match ReadOr(rest[|OR|..], row)
      case None => None
      case Some((w, after)) => Some((v || w, after))
    else Some((v, rest))
  }

  function ReadAnd(ts: seq<Token>, row: Row): (r: Option<(bool, seq<Token>)>)
    ensures r.Some? ==> |r.value.1| < |ts|
    decreases |ts|, 1
  {
    match ReadAtom(ts, row)
    case None => None
    case Some((v, rest)) => AndThen(v, rest, row)
  }

  function AndThen(v: bool, rest: seq<Token>, row: Row): (r: Option<(bool, seq<Token>)>)
    ensures r.Some? ==> |r.value.1| <= |rest|
    decreases |rest|, 2
  {
    if At(rest, AND) then
      match ReadAnd(rest[|AND|..], row)
      case None => None
      case Some((w, after)) => Some((v && w, after))
    else Some((v, rest))
  }

  function ReadAtom(ts: seq<Token>, row: Row): (r: Option<(bool, seq<Token>)>)
    ensures r.Some? ==> |r.value.1| < |ts|
    decreases |ts|, 0
  {
    if At(ts, Symbols("(")) then
      match ReadOr(ts[1..], row)
      case None => None
      case Some((v, rest)) => if At(rest, [CLOSE]) then Some((v, rest[1..])) else None
    else
      var name := NameAt(ts);
      if name == "" then None else ReadTest(Column(row, name), ts[|name|..])
  }

  /** What is asked of the value of a column. */
  function ReadTest(x: string, ts: seq<Token>): (r: Option<(bool, seq<Token>)>)
    ensures r.Some? ==> |r.value.1| < |ts|
  {
    if At(ts, Symbols(" = ")) && |ts| > 3 && ts[3].Literal? then Some((x == ts[3].value, ts[4..]))
    else if At(ts, Symbols(" >= ")) && |ts| > 4 && ts[4].Literal? then Some((!Before(x, ts[4].value), ts[5..]))
    else if At(ts, Symbols(" < ")) && |ts| > 3 && ts[3].Literal? then Some((Before(x, ts[3].value), ts[4..]))
    else if At(ts, Symbols(" IN (")) then ReadList(x, ts[5..])
    else None
  }

  function ReadList(x: string, ts: seq<Token>): (r: Option<(bool, seq<Token>)>)
    ensures r.Some? ==> |r.value.1| < |ts|
  {
    if At(ts, [CLOSE]) then Some((false, ts[1..])) else ReadItems(x, ts)
  }

  function ReadItems(x: string, ts: seq<Token>): (r: Option<(bool, seq<Token>)>)
    ensures r.Some? ==> |r.value.1| < |ts|
    decreases |ts|
  {
    if ts == [] || !ts[0].Literal? then None
    else if At(ts[1..], [CLOSE]) then Some((x == ts[0].value, ts[2..]))
    else if At(ts[1..], Symbols(", ")) then
      match ReadItems(x, ts[3..])
      case None => None
      case Some((w, after)) => Some((x == ts[0].value || w, after))
    else None
  }

  /** Whether a predicate given as text keeps the row; `None` when the text is no predicate. */
  function Keeps(sql: string, row: Row): Option<bool> {
    match ReadOr(Lex(sql), row)
    case None => None
    case Some((v, rest)) => if rest == [] then Some(v) else None
  }

  // --- Every condition is read as what it describes -------------------------

  predicate IsName(k: string) { k != "" && forall i :: 0 <= i < |k| ==> 'a' <= k[i] <= 'z' }

  /** Columns are names, and a disjunction under a conjunction is in parentheses. */
  predicate Plain(c: Condition) {
    match c
    case Equal(k, _) => IsName(k)
    case AtLeast(k, _) => IsName(k)
    case Below(k, _) => IsName(k)
    case OneOf(k, _) => IsName(k)
    case Both(a, b) => Plain(a) && Plain(b) && !a.Either? && !b.Either?
    case Either(a, b) => Plain(a) && Plain(b)
    case Group(a) => Plain(a)
  }

  lemma AtFront(word: seq<Token>, rest: seq<Token>)
    ensures At(word + rest, word) && (word + rest)[|word|..] == rest
  {
  }

  lemma {:induction false} SymbolsOf(s: string)
    ensures |Symbols(s)| == |s| && forall i :: 0 <= i < |s| ==> Symbols(s)[i] == Symbol(s[i])
  {
    if s != [] { SymbolsOf(s[1..]); }
  }

  lemma {:induction false} SymbolsConcat(a: string, b: string)
    ensures Symbols(a + b) == Symbols(a) + Symbols(b)
  {
    if a == [] {
      assert a + b == b;
    } else {
      assert (a + b)[1..] == a[1..] + b;
      SymbolsConcat(a[1..], b);
    }
  }

  lemma {:induction false} NameFound(k: string, rest: seq<Token>)
    requires forall i :: 0 <= i < |k| ==> 'a' <= k[i] <= 'z'
    requires rest == [] || !IsLetter(rest[0])
    ensures NameAt(Symbols(k) + rest) == k
  {
    if k == [] {
      assert Symbols(k) + rest == rest;
    } else {
      assert (Symbols(k) + rest)[1..] == Symbols(k[1..]) + rest;
      NameFound(k[1..], rest);
      assert k == [k[0]] + k[1..];
    }
  }

  /** A test of a column is found behind its name. */
  lemma ColumnFound(k: string, rest: seq<Token>, row: Row)
    requires IsName(k) && rest != [] && rest[0] == Symbol(' ')
    ensures ReadAtom(Symbols(k) + rest, row) == ReadTest(Column(row, k), rest)
  {
    hide ReadTest, Column;
    SymbolsOf(k);
    NameFound(k, rest);
    var ts := Symbols(k) + rest;
    assert ts[0] == Symbol(k[0]) && Symbols("(")[0] == Symbol('(');
    assert !At(ts, Symbols("("));
    AtFront(Symbols(k), rest);
  }

  /** A comparison of the value of a column with a literal. */
  predicate Compare(x: string, op: string, v: string) {
    if op == " = " then x == v else if op == " >= " then !Before(x, v) else Before(x, v)
  }

  lemma EqualRead(x: string, v: string, rest: seq<Token>)
    ensures ReadTest(x, Symbols(" = ") + ([Literal(v)] + rest)) == Some((x == v, rest))
  {
    hide Before, ReadList, Symbols;
    SymbolsOf(" = ");
    AtFront(Symbols(" = "), [Literal(v)] + rest);
    ValueBehind(Symbols(" = "), v, rest);
  }

  lemma AtLeastRead(x: string, v: string, rest: seq<Token>)
    ensures ReadTest(x, Symbols(" >= ") + ([Literal(v)] + rest)) == Some((!Before(x, v), rest))
  {
    hide Before, ReadList, Symbols, At;
    SymbolsOf(" = ");
    SymbolsOf(" >= ");
    AtFront(Symbols(" >= "), [Literal(v)] + rest);
    ValueBehind(Symbols(" >= "), v, rest);
    AtLetter(Symbols(" >= ") + ([Literal(v)] + rest), Symbols(" = "), 1);
  }

  lemma BelowRead(x: string, v: string, rest: seq<Token>)
    ensures ReadTest(x, Symbols(" < ") + ([Literal(v)] + rest)) == Some((Before(x, v), rest))
  {
    hide Before, ReadList, Symbols, At;
    SymbolsOf(" = ");
    SymbolsOf(" >= ");
    SymbolsOf(" < ");
    AtFront(Symbols(" < "), [Literal(v)] + rest);
    ValueBehind(Symbols(" < "), v, rest);
    AtLetter(Symbols(" < ") + ([Literal(v)] + rest), Symbols(" = "), 1);
    AtLetter(Symbols(" < ") + ([Literal(v)] + rest), Symbols(" >= "), 1);
  }

  lemma ValueBehind(op: seq<Token>, v: string, rest: seq<Token>)
    ensures var ts := op + ([Literal(v)] + rest);
      |ts| > |op| && ts[|op|] == Literal(v) && ts[|op| + 1..] == rest && forall i :: 0 <= i < |op| ==> ts[i] == op[i]
  {
  }

  lemma ComparisonRead(x: string, op: string, v: string, rest: seq<Token>)
    requires op in [" = ", " >= ", " < "]
    ensures ReadTest(x, Symbols(op) + ([Literal(v)] + rest)) == Some((Compare(x, op, v), rest))
  {
    hide Before, ReadTest, Symbols;
    if op == " = " { EqualRead(x, v, rest); }
    else if op == " >= " { AtLeastRead(x, v, rest); }
    else { BelowRead(x, v, rest); }
  }

  lemma ListSnoc(vs: seq<string>)
    requires |vs| >= 2
    ensures ListTokens(vs) == ListTokens(vs[..|vs| - 1]) + Symbols(", ") + [Literal(vs[|vs| - 1])]
  {
  }

  lemma Shift(a: seq<Token>, b: seq<Token>, c: seq<Token>, d: seq<Token>, e: seq<Token>)
    ensures a + (b + c) + d + e == a + (b + (c + d + e))
  {
  }

  /** The list as it is read, from its front. */
  lemma {:induction false} ListHead(v: string, vs: seq<string>)
    requires vs != []
    ensures ListTokens([v] + vs) == [Literal(v)] + (Symbols(", ") + ListTokens(vs))
    decreases |vs|
  {
    var all, front, last := [v] + vs, vs[..|vs| - 1], vs[|vs| - 1];
    assert all[..|all| - 1] == [v] + front;
    ListSnoc(all);
    if |vs| == 1 {
      assert front == [] && [v] + front == [v];
      Join3([Literal(v)], Symbols(", "), [Literal(last)]);
    } else {
      ListSnoc(vs);
      ListHead(v, front);
      hide ListTokens, Symbols;
      Shift([Literal(v)], Symbols(", "), ListTokens(front), Symbols(", "), [Literal(last)]);
    }
  }

  lemma LastItem(x: string, v: string, rest: seq<Token>)
    ensures ReadItems(x, [Literal(v)] + ([CLOSE] + rest)) == Some((x == v, rest))
  {
    var ts := [Literal(v)] + ([CLOSE] + rest);
    assert ts[1..] == [CLOSE] + rest && ts[2..] == rest;
  }

  lemma ItemBefore(x: string, v: string, more: seq<Token>)
    ensures ReadItems(x, [Literal(v)] + (Symbols(", ") + more)) ==
            match ReadItems(x, more)
            case None => None
            case Some((w, after)) => Some((x == v || w, after))
  {
    var tail := Symbols(", ") + more;
    var ts := [Literal(v)] + tail;
    SymbolsOf(", ");
    assert ts[1..] == tail && tail[0] == Symbol(',');
    AtFront(Symbols(", "), more);
    DropTwice(ts, 1, 2);
    hide Symbols;
  }

  lemma {:induction false} ItemsRead(x: string, vs: seq<string>, rest: seq<Token>)
    requires vs != []
    ensures ReadItems(x, ListTokens(vs) + ([CLOSE] + rest)) == Some((x in vs, rest))
    decreases |vs|
  {
    hide ReadItems, Symbols;
    var v, more, tail := vs[0], vs[1..], [CLOSE] + rest;
    assert vs == [v] + more;
    if more == [] {
      LastItem(x, v, rest);
    } else {
      hide ListTokens;
      ListHead(v, more);
      ItemsRead(x, more, rest);
      ItemBefore(x, v, ListTokens(more) + tail);
      Join3([Literal(v)], Symbols(", ") + ListTokens(more), tail);
      Join3(Symbols(", "), ListTokens(more), tail);
    }
  }

  lemma ListStarts(vs: seq<string>)
    requires vs != []
    ensures ListTokens(vs) != [] && ListTokens(vs)[0].Literal?
    decreases |vs|
  {
    if |vs| > 1 { ListStarts(vs[..|vs| - 1]); }
  }

  lemma ListRead(x: string, vs: seq<string>, rest: seq<Token>)
    ensures ReadTest(x, Symbols(" IN (") + (ListTokens(vs) + ([CLOSE] + rest))) == Some((x in vs, rest))
  {
    hide ReadItems;
    var tail := ListTokens(vs) + ([CLOSE] + rest);
    var ts := Symbols(" IN (") + tail;
    SymbolsOf(" IN (");
    SymbolsOf(" = ");
    SymbolsOf(" >= ");
    SymbolsOf(" < ");
    assert ts[1] == Symbol('I');
    AtFront(Symbols(" IN ("), tail);
    if vs == [] {
      assert tail == [CLOSE] + rest && tail[1..] == rest;
    } else {
      ListStarts(vs);
      assert tail[0].Literal?;
      ItemsRead(x, vs, rest);
    }
  }

  lemma {:induction false} TestRead(c: Condition, rest: seq<Token>, row: Row)
    requires Plain(c) && !c.Both? && !c.Either? && !c.Group?
    ensures ReadAtom(Tokens(c) + rest, row) == Some((Selects(c, row), rest))
  {
    hide ReadAtom, ReadTest, Before, ListTokens, Symbols;
    match c
    case Equal(k, v) => SimpleTestRead(k, " = ", v, rest, row);
    case AtLeast(k, v) => SimpleTestRead(k, " >= ", v, rest, row);
    case Below(k, v) => SimpleTestRead(k, " < ", v, rest, row);
    case OneOf(k, vs) =>
      var tail := ListTokens(vs) + ([CLOSE] + rest);
      SymbolsConcat(k, " IN (");
      CloseToken();
      assert Tokens(c) + rest == Symbols(k) + (Symbols(" IN (") + tail);
      SymbolsOf(" IN (");
      ColumnFound(k, Symbols(" IN (") + tail, row);
      ListRead(Column(row, k), vs, rest);
  }

  lemma CloseToken()
    ensures Symbols(")") == [CLOSE]
  {
    SymbolsOf(")");
  }

  lemma SimpleTestRead(k: string, op: string, v: string, rest: seq<Token>, row: Row)
    requires IsName(k) && op in [" = ", " >= ", " < "]
    ensures ReadAtom(Symbols(k + op) + [Literal(v)] + rest, row) ==
            Some((Compare(Column(row, k), op, v), rest))
  {
    hide ReadAtom, ReadTest, Before, Symbols, Column;
    var tail := [Literal(v)] + rest;
    SymbolsConcat(k, op);
    SymbolsOf(op);
    assert Symbols(k + op) + [Literal(v)] + rest == Symbols(k) + (Symbols(op) + tail);
    ColumnFound(k, Symbols(op) + tail, row);
    ComparisonRead(Column(row, k), op, v, rest);
  }

  /** AND and OR are told apart by their second letter, and neither begins with a parenthesis. */
  lemma WordsDiffer(rest: seq<Token>)
    ensures |AND| == 5 && |OR| == 4 && !At(OR + rest, AND) && !At(AND + rest, OR)
    ensures !At([CLOSE] + rest, AND) && !At([CLOSE] + rest, OR) && !At([], AND) && !At([], OR)
  {
    SymbolsOf(" AND ");
    SymbolsOf(" OR ");
    hide Symbols;
    assert AND[1] == Symbol('A') && OR[1] == Symbol('O') && AND[0] == OR[0] == Symbol(' ');
    AtLetter(OR + rest, AND, 1);
    AtLetter(AND + rest, OR, 1);
    AtLetter([CLOSE] + rest, AND, 0);
    AtLetter([CLOSE] + rest, OR, 0);
  }

  lemma AtLetter(ts: seq<Token>, word: seq<Token>, i: nat)
    requires i < |word|
    ensures At(ts, word) ==> i < |ts| && ts[i] == word[i]
  {
  }

  lemma {:induction false} AndRead(c: Condition, rest: seq<Token>, row: Row)
    requires Plain(c) && !c.Either?
    ensures ReadAnd(Tokens(c) + rest, row) == AndThen(Selects(c, row), rest, row)
    decreases Depth(c), 0
  {
    hide ReadAtom, Lex;
    match c
    case Both(a, b) =>
      var tail := Tokens(b) + rest;
      assert Tokens(c) + rest == Tokens(a) + (AND + tail);
      hide Tokens, Symbols;
      AndRead(a, AND + tail, row);
      AndRead(b, rest, row);
      AtFront(AND, tail);
    case Group(a) => GroupRead(a, rest, row);
    case _ =>
      hide AndThen, Tokens, Selects;
      TestRead(c, rest, row);
  }

  lemma {:induction false} GroupRead(a: Condition, rest: seq<Token>, row: Row)
    requires Plain(a)
    ensures ReadAtom(Tokens(Group(a)) + rest, row) == Some((Selects(Group(a), row), rest))
    decreases Depth(a), 2
  {
    var tail := [CLOSE] + rest;
    CloseToken();
    assert Tokens(Group(a)) + rest == Symbols("(") + (Tokens(a) + tail);
    hide Tokens, ReadAnd;
    SymbolsOf("(");
    AtFront(Symbols("("), Tokens(a) + tail);
    WordsDiffer(rest);
    OrRead(a, tail, row);
    assert tail[1..] == rest;
  }

  lemma OrOfAnd(ts: seq<Token>, v: bool, rest: seq<Token>, row: Row)
    requires ReadAnd(ts, row) == AndThen(v, rest, row) && !At(rest, AND)
    ensures ReadOr(ts, row) == OrThen(v, rest, row)
  {
  }

  lemma OrChains(v: bool, w: bool, ts: seq<Token>, rest: seq<Token>, row: Row)
    requires ReadOr(ts, row) == OrThen(w, rest, row)
    ensures OrThen(v, OR + ts, row) == OrThen(v || w, rest, row)
  {
    AtFront(OR, ts);
    hide ReadOr;
  }

  lemma {:induction false} OrRead(c: Condition, rest: seq<Token>, row: Row)
    requires Plain(c) && !At(rest, AND)
    ensures ReadOr(Tokens(c) + rest, row) == OrThen(Selects(c, row), rest, row)
    decreases Depth(c), 1
  {
    hide ReadAnd, ReadOr, OrThen, At, Symbols;
    if c.Either? {
      var tail := Tokens(c.right) + rest;
      Join4(Tokens(c.left), OR, Tokens(c.right), rest);
      WordsDiffer(tail);
      OrRead(c.left, OR + tail, row);
      OrRead(c.right, rest, row);
      OrChains(Selects(c.left, row), Selects(c.right, row), tail, rest, row);
    } else {
      AndRead(c, rest, row);
      OrOfAnd(Tokens(c) + rest, Selects(c, row), rest, row);
    }
  }

  lemma NamesHaveNoQuotes(c: Condition)
    requires Plain(c)
    ensures PlainColumns(c)
  {
  }

  /** The text of a condition, read as SQL, keeps exactly the rows the condition describes. */
  lemma TextMeansCondition(c: Condition, row: Row)
    requires Plain(c)
    ensures Keeps(SqlText(c), row) == Some(Selects(c, row))
  {
    hide SqlText, Lex, ReadOr, Selects, Plain;
    NamesHaveNoQuotes(c);
    PredicateLexesBack(c);
    WordsDiffer([]);
    OrRead(c, [], row);
    assert Tokens(c) + [] == Tokens(c);
  }

  // --- The predicates of the store ------------------------------------------

  lemma StoreColumns()
    ensures IsName("root") && IsName("path") && IsName("language")
  {
  }

  /** The text built for a deletion selects the rows of the given paths of the workspace and no others. */
  lemma DeletionText(root: string, paths: seq<string>, row: Row)
    ensures Keeps(SqlText(DeletionCondition(root, paths)), row) == Some(row.root == root && row.path in paths)
  {
    hide SqlText, Keeps, IsName;
    StoreColumns();
    DeletionSelects(root, paths, row);
    TextMeansCondition(DeletionCondition(root, paths), row);
  }

  lemma DirectoryIsPlain(d: string)
    ensures Plain(DirectoryCondition(d))
  {
    hide IsName;
    StoreColumns();
    var same, low, high := Equal("path", d), AtLeast("path", d + "/"), Below("path", d + "0");
    assert Plain(same) && Plain(low) && Plain(high);
    assert Plain(Both(low, high));
    assert Plain(Group(Both(low, high)));
    assert Plain(Either(same, Group(Both(low, high))));
  }

  lemma SearchIsPlain(root: string, f: PathFilter, language: Option<string>)
    ensures Plain(SearchCondition(root, f, language))
  {
    hide IsName, DirectoryCondition;
    StoreColumns();
    if f.Directory? {
      DirectoryIsPlain(f.path);
      DirectoryIsGroup(f.path);
    }
    var inRoot := Equal("root", root);
    var inScope := if f.Workspace? then inRoot else Both(inRoot, FilterCondition(f));
    assert Plain(inRoot);
    if !f.Workspace? { assert Plain(FilterCondition(f)) && !FilterCondition(f).Either?; }
    assert Plain(inScope) && !inScope.Either?;
    if language.Some? { assert Plain(Equal("language", language.value)); }
  }

  lemma DirectoryIsGroup(d: string)
    ensures DirectoryCondition(d).Group?
  {
  }

  /**
    The text built for a search keeps exactly the rows of the workspace, the scope and
    the language asked for; a language that is blank asks for none.
   */
  lemma SearchText(root: string, f: PathFilter, given: Option<string>, trim: string -> string, row: Row)
    ensures Keeps(SqlText(SearchCondition(root, f, WantedLanguage(given, trim))), row) ==
            Some(row.root == root && f.Contains(row.path)
                 && (given.Some? && trim(given.value) != "" ==> row.language == trim(given.value)))
  {
    hide SqlText, Keeps, SearchCondition;
    var language := WantedLanguage(given, trim);
    SearchIsPlain(root, f, language);
    SearchSelects(root, f, language, row);
    TextMeansCondition(SearchCondition(root, f, language), row);
  }
}
