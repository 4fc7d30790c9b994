/**
  Runs that fail after the store was changed and before the manifest was saved, and
  exactly which paths the next run puts right.
 */
module FailedRuns {
  import opened Wrappers
  import opened PathFilters
  import opened SemanticStore
  import opened SemanticIndex
  import opened SemanticRuns

  /**
    How far the run came: it had deleted the rows of its first changed paths, or had deleted
    all and added the new ones.
   */
  datatype Failure = Deleting(done: nat) | Added

  function Changed(s: State, run: Run, chunk: Chunker, stale: seq<string>): seq<string> {
    PathsOf(Scan(s.files, run.seen, run, chunk).pending) + stale
  }

  function FirstOf(paths: seq<string>, n: nat): seq<string> { if n < |paths| then paths[..n] else paths }

  /** The paths whose old rows are gone. */
  function Gone(s: State, run: Run, chunk: Chunker, stale: seq<string>, f: Failure): seq<string> {
    if f.Added? then Changed(s, run, chunk, stale) else FirstOf(Changed(s, run, chunk, stale), f.done)
  }

  /** What a failed run leaves: the store as far as it came, and the manifest as it was. */
  function Failed(s: State, run: Run, chunk: Chunker, root: string, stale: seq<string>, f: Failure): State {
    var pending := Scan(s.files, run.seen, run, chunk).pending;
    s.(tables := s.tables[run.dim := Remaining(RowsAt(s.tables, run.dim), root, Gone(s, run, chunk, stale, f))
                                     + if f.Added? then Records(root, pending) else []])
  }

  /** The chunk ids stored for a path after the failure. */
  function IdsAfterFailure(s: State, run: Run, chunk: Chunker, stale: seq<string>, f: Failure, p: string): seq<string> {
    var pending := Scan(s.files, run.seen, run, chunk).pending;
    (if p in Gone(s, run, chunk, stale, f) then [] else IdsOf(s.files, p))
    + if f.Added? && PendingFor(pending, p).Some? then PendingFor(pending, p).value.ids else []
  }

  lemma FailedRows(s: State, run: Run, chunk: Chunker, root: string, stale: seq<string>, f: Failure, p: string)
    requires InStep(s, root, run.dim) && Proper(s, run, stale)
    ensures ChunkIdsOf(RowsAt(Failed(s, run, chunk, root, stale, f).tables, run.dim), root, p) ==
            IdsAfterFailure(s, run, chunk, stale, f, p)
  {
    var pending, rows, gone := Scan(s.files, run.seen, run, chunk).pending, RowsAt(s.tables, run.dim),
      Gone(s, run, chunk, stale, f);
    PendingDistinct(s.files, run.seen, run, chunk);
    assert ChunkIdsOf(rows, root, p) == IdsOf(s.files, p);
    hide Scan, Remaining, Records, ChunkIdsOf, Gone, InStep, Proper;
    ChunkIdsRemaining(rows, root, gone, p);
    RecordsAt(root, pending, p);
    ChunkIdsConcat(Remaining(rows, root, gone), if f.Added? then Records(root, pending) else [], root, p);
    ChunkIdsSingle(Row(root, p, "", ""), root, p);
  }

  /** The table the next run builds on: none when nothing is to be added and none is named in the manifest. */
  predicate Reads(s: State, next: Run, chunk: Chunker) { s.dim.Some? || AnyPending(s, next, chunk) }

  /**
    After a run that failed, the next run leaves a path with the rows its manifest
    entry names if and only if it reindexes or drops the path, or the failure had left
    its rows as the old manifest names them.
   */
  lemma NextRunHealsExactly(s: State, run: Run, chunk: Chunker, root: string, stale: seq<string>, f: Failure,
                            next: Run, nextStale: seq<string>, p: string)
    requires InStep(s, root, run.dim) && Proper(s, run, stale) && next.dim == run.dim
    requires Proper(Failed(s, run, chunk, root, stale, f), next, nextStale)
    ensures var c := Failed(s, run, chunk, root, stale, f);
      var left := if Reads(c, next, chunk) then IdsAfterFailure(s, run, chunk, stale, f, p) else [];
      Agrees(After(c, next, chunk, root, nextStale), root, p) <==>
        (Judge(s.files, next, chunk, p).Dropped? || Judge(s.files, next, chunk, p).Reindexed?
          || left == IdsOf(s.files, p))
  {
    var c := Failed(s, run, chunk, root, stale, f);
    FailedRows(s, run, chunk, root, stale, f, p);
    ChunkIdsSingle(Row(root, p, "", ""), root, p);
    AgreesExactly(c, next, chunk, root, nextStale, p);
    assert s.dim.Some? ==> s.dim.value == run.dim;
    assert c.files == s.files && c.dim == s.dim;
    hide After, Judge, ChunkIdsOf, InStep, Proper, Agrees, Failed, IdsAfterFailure;
  }

  /** A path that the failed run had not come to, or that the next run reindexes, is as it should be. */
  lemma UntouchedOrReindexed(s: State, run: Run, chunk: Chunker, root: string, stale: seq<string>, f: Failure,
                             next: Run, nextStale: seq<string>, p: string)
    requires InStep(s, root, run.dim) && Proper(s, run, stale) && next.dim == run.dim
    requires Proper(Failed(s, run, chunk, root, stale, f), next, nextStale)
    requires p !in Changed(s, run, chunk, stale) || Judge(s.files, next, chunk, p).Reindexed?
    ensures Agrees(After(Failed(s, run, chunk, root, stale, f), next, chunk, root, nextStale), root, p)
  {
    NextRunHealsExactly(s, run, chunk, root, stale, f, next, nextStale, p);
    PendingPaths(Scan(s.files, run.seen, run, chunk).pending, p);
    hide After, Judge, InStep, Proper, Agrees, Scan, AnyPending;
    if p !in Changed(s, run, chunk, stale) {
      NothingStored(s, root, run.dim, p);
      assert IdsOf(s.files, p) + [] == IdsOf(s.files, p);
    }
  }

  lemma NothingStored(s: State, root: string, dim: nat, p: string)
    requires InStep(s, root, dim)
    ensures s.dim.None? ==> IdsOf(s.files, p) == []
  {
  }

  /**
    A stale path whose rows are gone and that is discovered again unchanged is skipped by the
    next run: its rows stay lost.
   */
  lemma RevivedFileStaysLost(s: State, run: Run, chunk: Chunker, root: string, stale: seq<string>, f: Failure,
                             next: Run, nextStale: seq<string>, p: string)
    requires InStep(s, root, run.dim) && Proper(s, run, stale) && next.dim == run.dim && Faithful(s.files, chunk)
    requires Proper(Failed(s, run, chunk, root, stale, f), next, nextStale)
    requires p in stale && p in Gone(s, run, chunk, stale, f)
    requires Found(next.seen, p).Some? && !next.force
             && IsCurrent(s.files, p, Sha256(Found(next.seen, p).value.content))
    ensures !Agrees(After(Failed(s, run, chunk, root, stale, f), next, chunk, root, nextStale), root, p)
  {
    NextRunHealsExactly(s, run, chunk, root, stale, f, next, nextStale, p);
    JudgeMeaning(s, run, chunk, stale, p);
    FoundSeen(next.seen, p);
    SkippedWhenCurrent(s.files, next, chunk, p);
    hide After, Judge, InStep, Proper, Agrees, Scan, AnyPending, Gone;
    assert s.files[p].chunkIds != [];
  }

  lemma SkippedWhenCurrent(files: Manifest, run: Run, chunk: Chunker, p: string)
    requires Found(run.seen, p).Some? && !run.force && IsCurrent(files, p, Sha256(Found(run.seen, p).value.content))
    requires Found(run.seen, p).value.path == p
    ensures !Judge(files, run, chunk, p).Dropped? && !Judge(files, run, chunk, p).Reindexed?
  {
  }
}
