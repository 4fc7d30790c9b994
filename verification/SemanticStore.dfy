/** The LanceDB rows of the semantic index: what is stored for a path, and deletion in batches. */
module SemanticStore {
  import opened Wrappers
  import opened PathFilters
  import opened SqlPredicates
  import opened SqlMeaning

  const DELETE_PATH_BATCH_SIZE := 256

  /** The chunk ids stored for one path of a workspace, in row order. */
  function ChunkIdsOf(rows: seq<Row>, root: string, p: string): seq<string> {
    if rows == [] then []
    else
      var last := rows[|rows| - 1];
      ChunkIdsOf(rows[..|rows| - 1], root, p) + if last.root == root && last.path == p then [last.chunkId] else []
  }

  /** The rows a deletion leaves. */
  function Remaining(rows: seq<Row>, root: string, paths: seq<string>): seq<Row> {
    if rows == [] then []
    else
      var last := rows[|rows| - 1];
      Remaining(rows[..|rows| - 1], root, paths) + if last.root == root && last.path in paths then [] else [last]
  }

  /** One SQL deletion: the rows that the text of the predicate selects go. */
  function DeleteWhere(rows: seq<Row>, sql: string): seq<Row> {
    if rows == [] then []
    else
      var last := rows[|rows| - 1];
      DeleteWhere(rows[..|rows| - 1], sql) + if Keeps(sql, last) == Some(true) then [] else [last]
  }

  lemma {:induction false} DeleteWhereIsRemaining(rows: seq<Row>, root: string, paths: seq<string>)
    ensures DeleteWhere(rows, SqlText(DeletionCondition(root, paths))) == Remaining(rows, root, paths)
  {
    hide DeletionCondition, Keeps, SqlText;
    if rows != [] {
      DeletionText(root, paths, rows[|rows| - 1]);
      DeleteWhereIsRemaining(rows[..|rows| - 1], root, paths);
    }
  }

  lemma {:induction false} RemainingConcat(a: seq<Row>, b: seq<Row>, root: string, paths: seq<string>)
    ensures Remaining(a + b, root, paths) == Remaining(a, root, paths) + Remaining(b, root, paths)
  {
    if b == [] {
      assert a + b == a;
    } else {
      assert (a + b)[..|a + b| - 1] == a + b[..|b| - 1];
      RemainingConcat(a, b[..|b| - 1], root, paths);
    }
  }

  /** Two deletions in turn are one deletion of both lists. */
  lemma {:induction false} RemainingTwice(rows: seq<Row>, root: string, a: seq<string>, b: seq<string>)
    ensures Remaining(Remaining(rows, root, a), root, b) == Remaining(rows, root, a + b)
  {
    if rows != [] {
      var front, last := rows[..|rows| - 1], rows[|rows| - 1];
      RemainingTwice(front, root, a, b);
      var kept := if last.root == root && last.path in a then [] else [last];
      RemainingConcat(Remaining(front, root, a), kept, root, b);
      if kept != [] { RemainingSingle(last, root, b); }
    }
  }

  lemma RemainingSingle(row: Row, root: string, paths: seq<string>)
    ensures Remaining([row], root, paths) == if row.root == root && row.path in paths then [] else [row]
  {
    assert [row][..0] == [];
  }

  lemma {:induction false} RemainingNothing(rows: seq<Row>, root: string)
    ensures Remaining(rows, root, []) == rows
  {
    if rows != [] { RemainingNothing(rows[..|rows| - 1], root); }
  }

  /** Deletes in batches of 256 paths, each in one statement by the predicate built for it. */
  method DeletePaths(rows: seq<Row>, root: string, paths: seq<string>) returns (r: seq<Row>, statements: nat)
    ensures r == Remaining(rows, root, paths)
    ensures statements == (|paths| + 255) / 256
  {
    hide Remaining, DeleteWhere, DeletionCondition, SqlText, Lex, Tokens;
    RemainingNothing(rows, root);
    r := rows;
    statements := 0;
    var done := 0;
    while done < |paths|
      invariant 0 <= done <= |paths|
      invariant done == 256 * statements || (done == |paths| && statements == (|paths| + 255) / 256)
      invariant r == Remaining(rows, root, paths[..done])
    {
      var next := if done + DELETE_PATH_BATCH_SIZE < |paths| then done + DELETE_PATH_BATCH_SIZE else |paths|;
      var batch := paths[done..next];
      var sql, _ := DeletePathsPredicate(root, batch);
      r := DeleteWhere(r, sql);
      statements := statements + 1;
      DeleteWhereIsRemaining(Remaining(rows, root, paths[..done]), root, batch);
      RemainingTwice(rows, root, paths[..done], batch);
      assert paths[..done] + batch == paths[..next];
      done := next;
    }
    assert paths[..|paths|] == paths;
  }

  lemma {:induction false} ChunkIdsConcat(a: seq<Row>, b: seq<Row>, root: string, p: string)
    ensures ChunkIdsOf(a + b, root, p) == ChunkIdsOf(a, root, p) + ChunkIdsOf(b, root, p)
  {
    if b == [] {
      assert a + b == a;
    } else {
      assert (a + b)[..|a + b| - 1] == a + b[..|b| - 1];
      ChunkIdsConcat(a, b[..|b| - 1], root, p);
    }
  }

  lemma ChunkIdsSingle(row: Row, root: string, p: string)
    ensures ChunkIdsOf([], root, p) == []
    ensures ChunkIdsOf([row], root, p) == if row.root == root && row.path == p then [row.chunkId] else []
  {
    assert [row][..0] == [];
  }

  lemma RemainingSnoc(rows: seq<Row>, root: string, paths: seq<string>)
    requires rows != []
    ensures var front, last := rows[..|rows| - 1], rows[|rows| - 1];
      rows == front + [last] &&
      Remaining(rows, root, paths) ==
      Remaining(front, root, paths) + if last.root == root && last.path in paths then [] else [last]
  {
  }

  lemma {:induction false} ChunkIdsRemaining(rows: seq<Row>, root: string, paths: seq<string>, p: string)
    ensures ChunkIdsOf(Remaining(rows, root, paths), root, p) == if p in paths then [] else ChunkIdsOf(rows, root, p)
  {
    if rows != [] {
      hide ChunkIdsOf, Remaining;
      var front, last := rows[..|rows| - 1], rows[|rows| - 1];
      ChunkIdsRemaining(front, root, paths, p);
      RemainingSnoc(rows, root, paths);
      ChunkIdsConcat(front, [last], root, p);
      var kept := if last.root == root && last.path in paths then [] else [last];
      ChunkIdsConcat(Remaining(front, root, paths), kept, root, p);
      ChunkIdsSingle(last, root, p);
    }
  }

  predicate Distinct(paths: seq<string>) {
    paths == [] || (paths[|paths| - 1] !in paths[..|paths| - 1] && Distinct(paths[..|paths| - 1]))
  }

  function StoredCount(rows: seq<Row>, root: string, paths: seq<string>): nat {
    if paths == [] then 0
    else StoredCount(rows, root, paths[..|paths| - 1]) + |ChunkIdsOf(rows, root, paths[|paths| - 1])|
  }

  lemma {:induction false} RemovedOne(rows: seq<Row>, root: string, p: string)
    ensures |Remaining(rows, root, [p])| + |ChunkIdsOf(rows, root, p)| == |rows|
  {
    if rows != [] { RemovedOne(rows[..|rows| - 1], root, p); }
  }

  /** A deletion removes exactly the rows stored for its paths. */
  lemma {:induction false} RemovedCount(rows: seq<Row>, root: string, paths: seq<string>)
    requires Distinct(paths)
    ensures |Remaining(rows, root, paths)| + StoredCount(rows, root, paths) == |rows|
  {
    hide Remaining, ChunkIdsOf;
    if paths == [] {
      RemainingNothing(rows, root);
    } else {
      var front, last := paths[..|paths| - 1], paths[|paths| - 1];
      RemovedCount(rows, root, front);
      RemovedOne(Remaining(rows, root, front), root, last);
      ChunkIdsRemaining(rows, root, front, last);
      RemainingTwice(rows, root, front, [last]);
      assert front + [last] == paths;
    }
  }
}
