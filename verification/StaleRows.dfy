/**
  A history in which the index is not current: a file that was indexed becomes blank,
  and the next run leaves its old rows.
 */
module StaleRows {
  import opened Wrappers
  import opened PathFilters
  import opened SemanticStore
  import opened SemanticIndex
  import opened SemanticRuns
  import opened StampSafety
  import FileTree

  const P: string := "a"
  const ROOT: string := "r"

  /** One chunk for a file that is not blank. */
  function OneChunk(path: string, content: string): Source { if content == "" then Chunks([]) else Chunks(["c"]) }

  function TreeWith(content: string): FileTree.Tree {
    FileTree.Tree(0, map[[] := FileTree.Dir(0, 0), [P] := FileTree.File(content, 0, 0)])
  }

  const H: seq<FileTree.Tree> := [TreeWith("x"), TreeWith("")]

  function VisitAt(i: nat): Visit { Visit([Look(P, i, i)], i, i, PathFilter.Workspace, false, 1, 0) }

  const FIRST: seq<Finished> := [Finished(VisitAt(0), [])]
  const BOTH: seq<Finished> := FIRST + [Finished(VisitAt(1), [])]

  lemma PathNode(i: nat)
    requires i < 2
    ensures Components(P) == [P] && IsFileAt(H, P, i)
            && NodeAt(H, P, i) == FileTree.File(if i == 0 then "x" else "", 0, 0)
  {
    assert FindSlash(P, 0) == 1;
  }

  lemma BlankedHistory()
    ensures FileTree.History(H, 1)
  {
    var t, u := TreeWith("x"), TreeWith("");
    forall p | p in t.nodes && p != []
      ensures FileTree.KindOf(t, FileTree.Parent(p)) == FileTree.Directory
    {
      assert p == [P] && FileTree.Parent(p) == [];
    }
    var a := FileTree.Write([P], "");
    assert FileTree.Enabled(t, a);
    assert FileTree.Apply(t, a, 1) == u;
  }

  lemma VisitSees(i: nat)
    requires i < 2
    ensures Seeable(H, VisitAt(i))
    ensures var run, content := RunOf(H, VisitAt(i)), if i == 0 then "x" else "";
      && run.seen == [Seen(P, |content|, Some(0), content)]
      && run.filter == PathFilter.Workspace && !run.force && run.floor == 0 && run.dim == 1
  {
    PathNode(i);
  }

  lemma OneSeen(f: Seen, p: string)
    ensures SeenPaths([f]) == [f.path] && Distinct([f.path])
    ensures Found([f], p) == if p == f.path then Some(f) else None
  {
    assert [f][..0] == [] && [f.path][..0] == [];
  }

  lemma FirstRun(s: State)
    requires s == State(map[], None, map[])
    ensures var run := RunOf(H, VisitAt(0));
      && Proper(s, run, [])
      && forall p :: EntryOf(After(s, run, OneChunk, ROOT, []).files, p) ==
                     if p == P then Some(Entry(Sha256("x"), ["c"], 0, Some(1), None)) else None
  {
    VisitSees(0);
    var run := RunOf(H, VisitAt(0));
    OneSeen(run.seen[0], P);
    hide After, RunOf;
    forall p
      ensures EntryOf(After(s, run, OneChunk, ROOT, []).files, p) ==
              if p == P then Some(Entry(Sha256("x"), ["c"], 0, Some(1), None)) else None
    {
      OneSeen(run.seen[0], p);
      ManifestAfter(s, run, OneChunk, ROOT, [], p);
    }
  }

  lemma FirstReached()
    ensures Reached(H, FIRST, OneChunk, ROOT) ==
            After(State(map[], None, map[]), RunOf(H, VisitAt(0)), OneChunk, ROOT, [])
    ensures Sensible(H, FIRST, OneChunk, ROOT, 1)
  {
    hide After, RunOf, Proper;
    VisitSees(0);
    FirstRun(State(map[], None, map[]));
    assert FIRST[..0] == [];
  }

  lemma SecondIsSensible()
    ensures Sensible(H, BOTH, OneChunk, ROOT, 1)
    ensures BOTH[..1] == FIRST && P in Reached(H, FIRST, OneChunk, ROOT).files
    ensures Reached(H, FIRST, OneChunk, ROOT).files[P] == Entry(Sha256("x"), ["c"], 0, Some(1), None)
  {
    FirstReached();
    FirstRun(State(map[], None, map[]));
    VisitSees(1);
    var s, run := Reached(H, FIRST, OneChunk, ROOT), RunOf(H, VisitAt(1));
    hide After, RunOf, Reached, Seeable, Sensible;
    assert EntryOf(s.files, P).Some?;
    OneSeen(run.seen[0], P);
    forall p | p in s.files
      ensures p == P
    {
      assert EntryOf(s.files, p).Some?;
    }
    assert Proper(s, run, []);
    TwoRuns(s, run);
  }

  lemma TwoRuns(s: State, run: Run)
    requires Seeable(H, VisitAt(1)) && run == RunOf(H, VisitAt(1)) && s == Reached(H, FIRST, OneChunk, ROOT)
    requires Proper(s, run, []) && Sensible(H, FIRST, OneChunk, ROOT, 1)
    ensures Sensible(H, BOTH, OneChunk, ROOT, 1)
  {
    hide RunOf, Reached, Proper, Seeable;
    assert BOTH[..|BOTH| - 1] == FIRST && BOTH[|BOTH| - 1] == Finished(VisitAt(1), []);
  }

  /** What the second run finds and does: it skips the file, as one that cannot be indexed. */
  lemma SecondRun(s: State, run: Run)
    requires run.seen == [Seen(P, 0, Some(0), "")] && !run.force
    requires P in s.files && s.files[P] == Entry(Sha256("x"), ["c"], 0, Some(1), None)
    ensures EntryAfter(s.files, run, OneChunk, P) == Some(s.files[P])
  {
    OneSeen(run.seen[0], P);
  }

  lemma BothReached()
    requires Sensible(H, BOTH, OneChunk, ROOT, 1) && Seeable(H, VisitAt(1))
    ensures var s, run := Reached(H, FIRST, OneChunk, ROOT), RunOf(H, VisitAt(1));
      Proper(s, run, []) && Reached(H, BOTH, OneChunk, ROOT) == After(s, run, OneChunk, ROOT, [])
  {
    hide After, RunOf, Proper, Seeable;
    assert BOTH[..|BOTH| - 1] == FIRST && BOTH[|BOTH| - 1] == Finished(VisitAt(1), []);
  }

  /** Written blank between two runs, the file has no chunks left to index, and still has its old row. */
  lemma BlankedFileKeepsItsRows()
    ensures FileTree.History(H, 1) && Sensible(H, BOTH, OneChunk, ROOT, 1)
    ensures IsFileAt(H, P, 1) && IdsIn(OneChunk(P, NodeAt(H, P, 1).content)) == []
    ensures ChunkIdsOf(Rows(Reached(H, BOTH, OneChunk, ROOT)), ROOT, P) == ["c"]
  {
    hide After, RunOf, Reached, Seeable, Sensible, InStep, Faithful, Trusted, Rows, ChunkIdsOf, EntryAfter, Proper,
      FileTree.History;
    BlankedHistory();
    PathNode(1);
    SecondIsSensible();
    VisitSees(1);
    BothReached();
    var s, run := Reached(H, FIRST, OneChunk, ROOT), RunOf(H, VisitAt(1));
    FirstReached();
    EveryRun(H, 1, FIRST, OneChunk, ROOT, 1);
    ManifestAfter(s, run, OneChunk, ROOT, [], P);
    SecondRun(s, run);
    StepHolds(s, run, OneChunk, ROOT, [], P);
  }
}
