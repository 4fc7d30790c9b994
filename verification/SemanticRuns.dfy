/**
  What indexing runs promise: after every run the rows of a path are those its
  manifest entry names, an incremental run leaves what a forced one would, and
  the counts in the summary account for every row.
 */
module SemanticRuns {
  import opened Wrappers
  import opened PathFilters
  import opened SemanticStore
  import opened SemanticIndex
  import opened Discovery

  // --- What a run does to one path ------------------------------------------

  function Found(seen: seq<Seen>, p: string): Option<Seen> {
    if seen == [] then None
    else if seen[|seen| - 1].path == p then Some(seen[|seen| - 1])
    else Found(seen[..|seen| - 1], p)
  }

  function PendingFor(pending: seq<Pending>, p: string): Option<Pending> {
    if pending == [] then None
    else if pending[|pending| - 1].file.path == p then Some(pending[|pending| - 1])
    else PendingFor(pending[..|pending| - 1], p)
  }

  datatype Verdict = Dropped | Reindexed(file: Seen, ids: seq<string>) | Restamped(file: Seen) | Untouched

  function Judge(files: Manifest, run: Run, chunk: Chunker, p: string): Verdict {
    match Found(run.seen, p)
    case None => if p in files && run.filter.Contains(p) then Dropped else Untouched
    case Some(f) =>
      match Decide(files, f, run.force, chunk)
      case Replace(ids) => Reindexed(f, ids)
      case RefreshStamp => Restamped(f)
      case _ => Untouched
  }

  function EntryOf(files: Manifest, p: string): Option<Entry> { if p in files then Some(files[p]) else None }

  function IdsOf(files: Manifest, p: string): seq<string> { if p in files then files[p].chunkIds else [] }

  function Rows(s: State): seq<Row> { if s.dim.Some? then RowsAt(s.tables, s.dim.value) else [] }

  lemma {:induction false} FoundSeen(seen: seq<Seen>, p: string)
    ensures Found(seen, p).Some? <==> p in SeenPaths(seen)
    ensures Found(seen, p).Some? ==> Found(seen, p).value.path == p && Found(seen, p).value in seen
  {
    if seen != [] { FoundSeen(seen[..|seen| - 1], p); }
  }

  lemma ScanStep(files: Manifest, seen: seq<Seen>, run: Run, chunk: Chunker)
    requires seen != []
    ensures Scan(files, seen, run, chunk) ==
            ScanOne(Scan(files, seen[..|seen| - 1], run, chunk), seen[|seen| - 1], run, chunk)
  {
  }

  /** Looking at one file after another decides each on the manifest the run began with. */
  lemma {:induction false} ScanAt(files: Manifest, seen: seq<Seen>, run: Run, chunk: Chunker, p: string)
    requires Distinct(SeenPaths(seen))
    ensures var s, f := Scan(files, seen, run, chunk), Found(seen, p);
      && EntryOf(s.files, p) == (if p in files && f.Some? && Decide(files, f.value, run.force, chunk) == RefreshStamp
                                 then Some(Stamped(files[p], f.value, run.floor)) else EntryOf(files, p))
      && PendingFor(s.pending, p) == (if f.Some? && Decide(files, f.value, run.force, chunk).Replace?
                                      then Some(Pending(f.value, Decide(files, f.value, run.force, chunk).ids))
                                        else None)
  {
    hide Stamped;
    if seen != [] {
      var front, f := seen[..|seen| - 1], seen[|seen| - 1];
      assert SeenPaths(seen)[..|SeenPaths(seen)| - 1] == SeenPaths(front);
      ScanAt(files, front, run, chunk, p);
      ScanAt(files, front, run, chunk, f.path);
      FoundSeen(front, f.path);
      ScanStep(files, seen, run, chunk);
      var s := Scan(files, front, run, chunk);
      SameDecision(files, s.files, f, run.force, chunk);
      ScanOneAt(s, f, run, chunk, p);
      hide Scan, ScanOne, Decide, PendingFor, SeenPaths;
    }
  }

  lemma ScanOneAt(s: Scanned, f: Seen, run: Run, chunk: Chunker, p: string)
    ensures var d, t := Decide(s.files, f, run.force, chunk), ScanOne(s, f, run, chunk);
      && EntryOf(t.files, p) == (if f.path == p && p in s.files && d == RefreshStamp
                                 then Some(Stamped(s.files[p], f, run.floor)) else EntryOf(s.files, p))
      && PendingFor(t.pending, p) ==
         if f.path == p && d.Replace? then Some(Pending(f, d.ids)) else PendingFor(s.pending, p)
  {
    hide Decide, Stamped;
    PendingSnoc(s.pending, f, p);
  }

  lemma SameDecision(a: Manifest, b: Manifest, f: Seen, force: bool, chunk: Chunker)
    requires EntryOf(a, f.path) == EntryOf(b, f.path)
    ensures Decide(a, f, force, chunk) == Decide(b, f, force, chunk)
  {
  }

  lemma PendingSnoc(pending: seq<Pending>, f: Seen, p: string)
    ensures forall ids ::
      PendingFor(pending + [Pending(f, ids)], p) ==
      if f.path == p then Some(Pending(f, ids)) else PendingFor(pending, p)
  {
    forall ids
      ensures PendingFor(pending + [Pending(f, ids)], p) ==
              if f.path == p then Some(Pending(f, ids)) else PendingFor(pending, p)
    {
      assert (pending + [Pending(f, ids)])[..|pending|] == pending;
    }
  }

  lemma {:induction false} PendingPaths(pending: seq<Pending>, p: string)
    ensures p in PathsOf(pending) <==> PendingFor(pending, p).Some?
  {
    if pending != [] { PendingPaths(pending[..|pending| - 1], p); }
  }

  lemma {:induction false} PendingDistinct(files: Manifest, seen: seq<Seen>, run: Run, chunk: Chunker)
    requires Distinct(SeenPaths(seen))
    ensures Distinct(PathsOf(Scan(files, seen, run, chunk).pending))
    ensures forall p :: p in PathsOf(Scan(files, seen, run, chunk).pending) ==> p in SeenPaths(seen)
  {
    if seen != [] {
      var front, f := seen[..|seen| - 1], seen[|seen| - 1];
      assert SeenPaths(seen)[..|SeenPaths(seen)| - 1] == SeenPaths(front);
      PendingDistinct(files, front, run, chunk);
      ScanStep(files, seen, run, chunk);
      hide Scan, Decide;
      var s := Scan(files, front, run, chunk);
      var d := Decide(s.files, f, run.force, chunk);
      if d.Replace? {
        PathsSnoc(s.pending, Pending(f, d.ids));
        DistinctSnoc(PathsOf(s.pending), f.path);
      }
      hide PathsOf, Distinct;
    }
  }

  lemma PathsSnoc(pending: seq<Pending>, x: Pending)
    ensures PathsOf(pending + [x]) == PathsOf(pending) + [x.file.path]
  {
    assert (pending + [x])[..|pending|] == pending;
  }

  lemma DistinctSnoc(paths: seq<string>, p: string)
    ensures Distinct(paths + [p]) <==> Distinct(paths) && p !in paths
  {
    assert (paths + [p])[..|paths|] == paths;
  }

  lemma {:induction false} InsertedAt(files: Manifest, pending: seq<Pending>, run: Run, p: string)
    ensures EntryOf(Inserted(files, pending, run), p) ==
            if PendingFor(pending, p).Some? then Some(FreshEntry(PendingFor(pending, p).value, run))
            else EntryOf(files, p)
  {
    hide FreshEntry;
    if pending != [] { InsertedAt(files, pending[..|pending| - 1], run, p); }
  }

  lemma ChunkRowsSnoc(root: string, path: string, ids: seq<string>)
    requires ids != []
    ensures ids == ids[..|ids| - 1] + [ids[|ids| - 1]]
    ensures ChunkRows(root, path, ids) ==
            ChunkRows(root, path, ids[..|ids| - 1]) + [Row(root, path, LanguageOf(path), ids[|ids| - 1])]
  {
  }

  lemma {:induction false} ChunkRowsAt(root: string, path: string, ids: seq<string>, p: string)
    ensures ChunkIdsOf(ChunkRows(root, path, ids), root, p) == if path == p then ids else []
  {
    if ids != [] {
      hide ChunkIdsOf, ChunkRows, LanguageOf;
      var front, last := ids[..|ids| - 1], ids[|ids| - 1];
      ChunkRowsAt(root, path, front, p);
      ChunkRowsSnoc(root, path, ids);
      var row := Row(root, path, LanguageOf(path), last);
      ChunkIdsConcat(ChunkRows(root, path, front), [row], root, p);
      ChunkIdsSingle(row, root, p);
    }
  }

  lemma {:induction false} RecordsAt(root: string, pending: seq<Pending>, p: string)
    requires Distinct(PathsOf(pending))
    ensures ChunkIdsOf(Records(root, pending), root, p) ==
            if PendingFor(pending, p).Some? then PendingFor(pending, p).value.ids else []
  {
    hide ChunkIdsOf;
    if pending == [] {
      ChunkIdsSingle(Row(root, p, "", ""), root, p);
    } else {
      var front, last := pending[..|pending| - 1], pending[|pending| - 1];
      assert PathsOf(pending)[..|PathsOf(pending)| - 1] == PathsOf(front);
      RecordsAt(root, front, p);
      PendingPaths(front, p);
      ChunkRowsAt(root, last.file.path, last.ids, p);
      ChunkIdsConcat(Records(root, front), ChunkRows(root, last.file.path, last.ids), root, p);
    }
  }

  /** A run as a caller may ask for it: every file is discovered once. */
  ghost predicate Proper(s: State, run: Run, stale: seq<string>) {
    Distinct(SeenPaths(run.seen)) && StaleList(s.files, run.filter, SeenPaths(run.seen), stale)
  }

  function EntryAfter(files: Manifest, run: Run, chunk: Chunker, p: string): Option<Entry> {
    match Judge(files, run, chunk, p)
    case Dropped => None
    case Reindexed(f, ids) => Some(FreshEntry(Pending(f, ids), run))
    case Restamped(f) => if p in files then Some(Stamped(files[p], f, run.floor)) else None
    case Untouched => EntryOf(files, p)
  }

  /** The manifest after a run, path by path. */
  lemma ManifestAfter(s: State, run: Run, chunk: Chunker, root: string, stale: seq<string>, p: string)
    requires Proper(s, run, stale)
    ensures EntryOf(After(s, run, chunk, root, stale).files, p) == EntryAfter(s.files, run, chunk, p)
  {
    hide Stamped, FreshEntry, Scan, Inserted, Remaining, Records;
    var scan := Scan(s.files, run.seen, run, chunk);
    ScanAt(s.files, run.seen, run, chunk, p);
    FoundSeen(run.seen, p);
    InsertedAt(scan.files, scan.pending, run, p);
  }

  predicate AnyPending(s: State, run: Run, chunk: Chunker) { Scan(s.files, run.seen, run, chunk).pending != [] }

  /** The table the rows of a run end up in, as it was before. */
  function Base(s: State, run: Run, chunk: Chunker): seq<Row> {
    if AnyPending(s, run, chunk) then RowsAt(s.tables, run.dim) else Rows(s)
  }

  /** A path is replaced exactly when it is pending, and dropped exactly when it is stale. */
  lemma JudgeMeaning(s: State, run: Run, chunk: Chunker, stale: seq<string>, p: string)
    requires Proper(s, run, stale)
    ensures var j, pending := Judge(s.files, run, chunk, p), Scan(s.files, run.seen, run, chunk).pending;
      && (j.Reindexed? <==> PendingFor(pending, p).Some?)
      && (j.Reindexed? ==> PendingFor(pending, p).value.ids == j.ids)
      && (j.Dropped? <==> p in stale)
  {
    hide Scan, Decide, Stamped;
    ScanAt(s.files, run.seen, run, chunk, p);
    FoundSeen(run.seen, p);
  }

  lemma QuietRows(s: State, run: Run, chunk: Chunker, root: string, stale: seq<string>)
    requires !AnyPending(s, run, chunk)
    ensures Rows(After(s, run, chunk, root, stale)) == Remaining(Rows(s), root, stale)
  {
    hide Scan, Without, Remaining;
    RemainingNothing(Rows(s), root);
    RemainingOfNone(root, stale);
  }

  lemma RemainingOfNone(root: string, stale: seq<string>)
    ensures Remaining([], root, stale) == []
  {
  }

  lemma BusyRows(s: State, run: Run, chunk: Chunker, root: string, stale: seq<string>)
    requires AnyPending(s, run, chunk)
    ensures var pending := Scan(s.files, run.seen, run, chunk).pending;
      Rows(After(s, run, chunk, root, stale)) ==
      Remaining(RowsAt(s.tables, run.dim), root, PathsOf(pending) + stale) + Records(root, pending)
  {
    hide Scan, Without, Inserted, Remaining, Records, PathsOf;
  }

  /** The rows after a run, path by path: what was reindexed or dropped does not depend on what was stored. */
  lemma RowsAfter(s: State, run: Run, chunk: Chunker, root: string, stale: seq<string>, p: string)
    requires Proper(s, run, stale)
    ensures ChunkIdsOf(Rows(After(s, run, chunk, root, stale)), root, p) ==
            match Judge(s.files, run, chunk, p)
            case Dropped => []
            case Reindexed(_, ids) => ids
            case _ => ChunkIdsOf(Base(s, run, chunk), root, p)
  {
    JudgeMeaning(s, run, chunk, stale, p);
    hide Scan, Judge, After, ChunkIdsOf, Remaining, Records, RowsAt, Rows, PathsOf;
    var pending := Scan(s.files, run.seen, run, chunk).pending;
    PendingPaths(pending, p);
    if pending == [] {
      QuietRows(s, run, chunk, root, stale);
      ChunkIdsRemaining(Rows(s), root, stale, p);
      hide PendingFor;
      assert PendingFor(pending, p).None? by { NonePending(p); }
    } else {
      hide PendingFor;
      BusyRows(s, run, chunk, root, stale);
      PendingDistinct(s.files, run.seen, run, chunk);
      RecordsAt(root, pending, p);
      var changed := PathsOf(pending) + stale;
      ChunkIdsRemaining(RowsAt(s.tables, run.dim), root, changed, p);
      ChunkIdsConcat(Remaining(RowsAt(s.tables, run.dim), root, changed), Records(root, pending), root, p);
    }
  }

  lemma NonePending(p: string)
    ensures PendingFor([], p) == None
  {
  }

  // --- The store and the manifest agree -------------------------------------

  predicate Agrees(s: State, root: string, p: string) { ChunkIdsOf(Rows(s), root, p) == IdsOf(s.files, p) }

  /** Every run, from any state: exactly which paths agree afterwards. */
  lemma AgreesExactly(s: State, run: Run, chunk: Chunker, root: string, stale: seq<string>, p: string)
    requires Proper(s, run, stale)
    ensures Agrees(After(s, run, chunk, root, stale), root, p) <==>
            (Judge(s.files, run, chunk, p).Dropped? || Judge(s.files, run, chunk, p).Reindexed?
             || ChunkIdsOf(Base(s, run, chunk), root, p) == IdsOf(s.files, p))
  {
    hide After, Base, Decide, ChunkIdsOf;
    ManifestAfter(s, run, chunk, root, stale, p);
    RowsAfter(s, run, chunk, root, stale, p);
    FoundSeen(run.seen, p);
    if Judge(s.files, run, chunk, p).Restamped? { RestampedIsKnown(s.files, run, chunk, p); }
  }

  lemma RestampedIsKnown(files: Manifest, run: Run, chunk: Chunker, p: string)
    requires Judge(files, run, chunk, p).Restamped?
    ensures p in files
  {
    FoundSeen(run.seen, p);
  }

  /** Every row of the workspace carries the language of its path. */
  ghost predicate Labelled(rows: seq<Row>, root: string) {
    forall r :: r in rows && r.root == root ==> r.language == LanguageOf(r.path)
  }

  lemma {:induction false} RemainingIn(rows: seq<Row>, root: string, paths: seq<string>)
    ensures forall r :: r in Remaining(rows, root, paths) ==> r in rows
  {
    if rows != [] {
      RemainingIn(rows[..|rows| - 1], root, paths);
      RemainingSnoc(rows, root, paths);
      hide Remaining;
    }
  }

  lemma {:induction false} ChunkRowsLabelled(root: string, path: string, ids: seq<string>)
    ensures Labelled(ChunkRows(root, path, ids), root)
  {
    hide LanguageOf;
    if ids != [] { ChunkRowsLabelled(root, path, ids[..|ids| - 1]); }
  }

  lemma {:induction false} RecordsLabelled(root: string, pending: seq<Pending>)
    ensures Labelled(Records(root, pending), root)
  {
    hide ChunkRows, LanguageOf;
    if pending != [] {
      var last := pending[|pending| - 1];
      RecordsLabelled(root, pending[..|pending| - 1]);
      ChunkRowsLabelled(root, last.file.path, last.ids);
    }
  }

  lemma RunKeepsLabels(s: State, run: Run, chunk: Chunker, root: string, stale: seq<string>)
    requires Labelled(RowsAt(s.tables, run.dim), root) && (s.dim.Some? ==> s.dim.value == run.dim)
    ensures Labelled(RowsAt(After(s, run, chunk, root, stale).tables, run.dim), root)
  {
    hide Scan, Remaining, Records, Inserted, Without, LanguageOf, PathsOf;
    var pending, rows := Scan(s.files, run.seen, run, chunk).pending, RowsAt(s.tables, run.dim);
    RemainingIn(rows, root, stale);
    RemainingIn(rows, root, PathsOf(pending) + stale);
    RecordsLabelled(root, pending);
  }

  /** The rows stored for one path of a workspace, in order. */
  function RowsOf(rows: seq<Row>, root: string, p: string): seq<Row> {
    if rows == [] then []
    else
      var last := rows[|rows| - 1];
      RowsOf(rows[..|rows| - 1], root, p) + if last.root == root && last.path == p then [last] else []
  }

  /** Where every row carries its language, the rows of a path are given by its chunk ids. */
  lemma {:induction false} RowsFromIds(rows: seq<Row>, root: string, p: string)
    requires Labelled(rows, root)
    ensures RowsOf(rows, root, p) == ChunkRows(root, p, ChunkIdsOf(rows, root, p))
  {
    hide LanguageOf;
    if rows != [] {
      var front, last := rows[..|rows| - 1], rows[|rows| - 1];
      assert last in rows;
      RowsFromIds(front, root, p);
      var ids := ChunkIdsOf(front, root, p);
      assert RowsOf(front, root, p) + [] == RowsOf(front, root, p) && ids + [] == ids;
      if last.root == root && last.path == p {
        ChunkRowsSnoc(root, p, ids + [last.chunkId]);
        assert (ids + [last.chunkId])[..|ids|] == ids;
        assert last == Row(root, p, LanguageOf(p), last.chunkId);
      }
    }
  }

  /** The whole index agrees, with every table of the one vector dimension in use. */
  ghost predicate InStep(s: State, root: string, dim: nat) {
    && (s.dim.Some? ==> s.dim.value == dim)
    && (s.dim.None? ==> s.files == map[])
    && Labelled(RowsAt(s.tables, dim), root)
    && forall p :: ChunkIdsOf(RowsAt(s.tables, dim), root, p) == IdsOf(s.files, p)
  }

  lemma StartsInStep(root: string, dim: nat)
    ensures InStep(State(map[], None, map[]), root, dim)
  {
  }

  /** A run of the same dimension keeps the store and the manifest in step. */
  lemma RunKeepsStep(s: State, run: Run, chunk: Chunker, root: string, stale: seq<string>)
    requires InStep(s, root, run.dim) && Proper(s, run, stale)
    ensures InStep(After(s, run, chunk, root, stale), root, run.dim)
  {
    hide ChunkIdsOf;
    var a := After(s, run, chunk, root, stale);
    assert a.dim.Some? ==> a.dim.value == run.dim by { hide Scan, Remaining, Records, Inserted, Without, ChunkIdsOf; }
    forall p
      ensures ChunkIdsOf(RowsAt(a.tables, run.dim), root, p) == IdsOf(a.files, p)
    {
      PathKeepsStep(s, run, chunk, root, stale, p);
    }
    if a.dim.None? { QuietRun(s, run, chunk, root, stale); }
    RunKeepsLabels(s, run, chunk, root, stale);
  }

  lemma QuietRun(s: State, run: Run, chunk: Chunker, root: string, stale: seq<string>)
    requires InStep(s, root, run.dim) && Proper(s, run, stale)
    requires After(s, run, chunk, root, stale).dim.None?
    ensures After(s, run, chunk, root, stale).files == map[] && After(s, run, chunk, root, stale).tables == s.tables
  {
    hide Scan, Remaining, Records, Inserted, ChunkIdsOf;
    var a := After(s, run, chunk, root, stale);
    forall p
      ensures p !in a.files
    {
      ScanAt(s.files, run.seen, run, chunk, p);
      assert EntryOf(Scan(s.files, run.seen, run, chunk).files, p) == None;
    }
  }

  lemma PathKeepsStep(s: State, run: Run, chunk: Chunker, root: string, stale: seq<string>, p: string)
    requires InStep(s, root, run.dim) && Proper(s, run, stale)
    ensures var a := After(s, run, chunk, root, stale);
      ChunkIdsOf(RowsAt(a.tables, run.dim), root, p) == IdsOf(a.files, p)
  {
    hide ChunkIdsOf, Scan, Remaining, Records, Inserted, Without, Decide;
    var a := After(s, run, chunk, root, stale);
    assert ChunkIdsOf(RowsAt(s.tables, run.dim), root, p) == IdsOf(s.files, p);
    if a.dim.None? {
      QuietRun(s, run, chunk, root, stale);
    } else {
      ChunkIdsSingle(Row(root, p, "", ""), root, p);
      AgreesExactly(s, run, chunk, root, stale, p);
    }
  }

  // --- Incremental equals forced --------------------------------------------

  /** Every entry names the chunks of the content it hashes. */
  ghost predicate Faithful(files: Manifest, chunk: Chunker) {
    forall p :: p in files ==> files[p].chunkIds != [] && chunk(p, files[p].hash.content) == Chunks(files[p].chunkIds)
  }

  /** No stamp matches a file whose content has moved on. */
  ghost predicate StampsTrue(files: Manifest, seen: seq<Seen>) {
    forall f :: f in seen && StampMatches(files, f) ==> files[f.path].hash == Sha256(f.content)
  }

  lemma EntryKeepsFaith(files: Manifest, run: Run, chunk: Chunker, p: string)
    requires Faithful(files, chunk)
    ensures var e := EntryAfter(files, run, chunk, p);
      e.Some? ==> e.value.chunkIds != [] && chunk(p, e.value.hash.content) == Chunks(e.value.chunkIds)
  {
    FoundSeen(run.seen, p);
  }

  lemma RunKeepsFaith(s: State, run: Run, chunk: Chunker, root: string, stale: seq<string>)
    requires Faithful(s.files, chunk) && Proper(s, run, stale)
    ensures Faithful(After(s, run, chunk, root, stale).files, chunk)
  {
    hide After, EntryAfter, Proper;
    var a := After(s, run, chunk, root, stale);
    forall p | p in a.files
      ensures a.files[p].chunkIds != [] && chunk(p, a.files[p].hash.content) == Chunks(a.files[p].chunkIds)
    {
      ManifestAfter(s, run, chunk, root, stale, p);
      EntryKeepsFaith(s.files, run, chunk, p);
    }
  }

  /** What two indexes must share to answer alike: the hash and the chunk ids of each path, and its rows. */
  predicate SameIndex(a: State, b: State, root: string, p: string) {
    && (p in a.files <==> p in b.files)
    && (p in a.files ==> a.files[p].hash == b.files[p].hash && a.files[p].chunkIds == b.files[p].chunkIds)
    && RowsOf(Rows(a), root, p) == RowsOf(Rows(b), root, p)
  }

  lemma SameEntry(s: State, run: Run, chunk: Chunker, p: string)
    requires Faithful(s.files, chunk) && StampsTrue(s.files, run.seen)
    ensures var a := EntryAfter(s.files, run.(force := false), chunk, p);
      var b := EntryAfter(s.files, run.(force := true), chunk, p);
      (a.Some? <==> b.Some?) && (a.Some? ==> a.value.hash == b.value.hash && a.value.chunkIds == b.value.chunkIds)
  {
    FoundSeen(run.seen, p);
  }

  /** Skipping what is current changes nothing: an incremental run leaves the index a forced run leaves. */
  lemma IncrementalEqualsForced(s: State, run: Run, chunk: Chunker, root: string, stale: seq<string>, p: string)
    requires InStep(s, root, run.dim) && Faithful(s.files, chunk) && StampsTrue(s.files, run.seen)
    requires Proper(s, run, stale)
    ensures SameIndex(After(s, run.(force := false), chunk, root, stale),
                      After(s, run.(force := true), chunk, root, stale), root, p)
  {
    hide After, EntryAfter, Faithful, StampsTrue, ChunkIdsOf, RowsOf, Labelled, Rows;
    var lazy, eager := run.(force := false), run.(force := true);
    ManifestAfter(s, lazy, chunk, root, stale, p);
    ManifestAfter(s, eager, chunk, root, stale, p);
    SameEntry(s, run, chunk, p);
    StepHolds(s, lazy, chunk, root, stale, p);
    StepHolds(s, eager, chunk, root, stale, p);
    RowsFromIds(Rows(After(s, lazy, chunk, root, stale)), root, p);
    RowsFromIds(Rows(After(s, eager, chunk, root, stale)), root, p);
  }

  lemma StepHolds(s: State, run: Run, chunk: Chunker, root: string, stale: seq<string>, p: string)
    requires InStep(s, root, run.dim) && Proper(s, run, stale)
    ensures Agrees(After(s, run, chunk, root, stale), root, p)
            && Labelled(Rows(After(s, run, chunk, root, stale)), root)
  {
    hide After, ChunkIdsOf;
    RunKeepsStep(s, run, chunk, root, stale);
    var a := After(s, run, chunk, root, stale);
    ChunkIdsSingle(Row(root, p, "", ""), root, p);
    assert ChunkIdsOf(RowsAt(a.tables, run.dim), root, p) == IdsOf(a.files, p);
  }

  /** A run leaves every path outside its scope as it was. */
  lemma OutsideScope(s: State, run: Run, chunk: Chunker, root: string, stale: seq<string>, p: string)
    requires InStep(s, root, run.dim) && Proper(s, run, stale)
    requires !run.filter.Contains(p) && p !in SeenPaths(run.seen)
    ensures EntryOf(After(s, run, chunk, root, stale).files, p) == EntryOf(s.files, p)
    ensures ChunkIdsOf(Rows(After(s, run, chunk, root, stale)), root, p) == IdsOf(s.files, p)
  {
    hide After, ChunkIdsOf;
    FoundSeen(run.seen, p);
    ManifestAfter(s, run, chunk, root, stale, p);
    StepHolds(s, run, chunk, root, stale, p);
  }

  // --- The counts -----------------------------------------------------------

  lemma {:induction false} CountsMatch(rows: seq<Row>, files: Manifest, root: string, paths: seq<string>)
    requires forall p :: ChunkIdsOf(rows, root, p) == IdsOf(files, p)
    ensures StoredCount(rows, root, paths) == EntryCount(files, paths)
  {
    hide ChunkIdsOf;
    if paths != [] { CountsMatch(rows, files, root, paths[..|paths| - 1]); }
  }

  /** The chunks reported as indexed under a filter are the rows stored for the paths it contains. */
  lemma ReportedChunksAreStored(s: State, root: string, dim: nat, filter: PathFilter, counted: seq<string>)
    requires InStep(s, root, dim) && Distinct(counted)
    requires forall p :: p in counted <==> p in s.files && filter.Contains(p)
    ensures EntryCount(s.files, counted) + |Remaining(RowsAt(s.tables, dim), root, counted)| == |RowsAt(s.tables, dim)|
    ensures forall p :: filter.Contains(p) ==>
      ChunkIdsOf(Remaining(RowsAt(s.tables, dim), root, counted), root, p) == []
  {
    hide ChunkIdsOf, Remaining;
    var rows := RowsAt(s.tables, dim);
    CountsMatch(rows, s.files, root, counted);
    RemovedCount(rows, root, counted);
    forall p | filter.Contains(p)
      ensures ChunkIdsOf(Remaining(rows, root, counted), root, p) == []
    {
      ChunkIdsRemaining(rows, root, counted, p);
      assert ChunkIdsOf(rows, root, p) == IdsOf(s.files, p);
    }
  }

  lemma {:induction false} DistinctConcat(a: seq<string>, b: seq<string>)
    requires Distinct(a) && Distinct(b) && forall p :: p in b ==> p !in a
    ensures Distinct(a + b)
  {
    if b == [] {
      assert a + b == a;
    } else {
      assert (a + b)[..|a + b| - 1] == a + b[..|b| - 1];
      DistinctConcat(a, b[..|b| - 1]);
    }
  }

  lemma {:induction false} ScanKeepsCounts(files: Manifest, seen: seq<Seen>, run: Run, chunk: Chunker,
                                           paths: seq<string>)
    ensures EntryCount(Scan(files, seen, run, chunk).files, paths) == EntryCount(files, paths)
    decreases |seen|
  {
    if seen != [] {
      ScanKeepsCounts(files, seen[..|seen| - 1], run, chunk, paths);
      ScanStep(files, seen, run, chunk);
      hide Scan, Decide;
      var s, f := Scan(files, seen[..|seen| - 1], run, chunk), seen[|seen| - 1];
      if f.path in s.files { RestampKeepsCount(s.files, f, run.floor, paths); }
    }
  }

  lemma {:induction false} RestampKeepsCount(files: Manifest, f: Seen, floor: int, paths: seq<string>)
    requires f.path in files
    ensures EntryCount(files[f.path := Stamped(files[f.path], f, floor)], paths) == EntryCount(files, paths)
  {
    if paths != [] { RestampKeepsCount(files, f, floor, paths[..|paths| - 1]); }
  }

  /** Conservation: the rows after a run are those before, less the deleted chunks reported, plus the updated ones. */
  lemma RowsAccounted(s: State, run: Run, chunk: Chunker, root: string, stale: seq<string>)
    requires InStep(s, root, run.dim) && Proper(s, run, stale)
    ensures var scan := Scan(s.files, run.seen, run, chunk);
      |RowsAt(After(s, run, chunk, root, stale).tables, run.dim)|
        + EntryCount(scan.files, PathsOf(scan.pending) + stale) ==
      |RowsAt(s.tables, run.dim)| + IdCount(scan.pending)
  {
    hide Scan, Remaining, Records, Inserted, Without, ChunkIdsOf, EntryCount, Distinct;
    var scan, rows := Scan(s.files, run.seen, run, chunk), RowsAt(s.tables, run.dim);
    var changed := PathsOf(scan.pending) + stale;
    assert Distinct(stale) && Distinct(SeenPaths(run.seen));
    PendingDistinct(s.files, run.seen, run, chunk);
    DistinctConcat(PathsOf(scan.pending), stale);
    RemovedCount(rows, root, changed);
    CountsMatch(rows, s.files, root, changed);
    ScanKeepsCounts(s.files, run.seen, run, chunk, changed);
    RecordCount(root, scan.pending);
    if scan.pending == [] {
      assert changed == stale;
      if s.dim.None? { NothingToCount(s.files, stale); }
      if stale == [] { RemainingNothing(rows, root); }
    }
  }

  lemma {:induction false} NothingToCount(files: Manifest, paths: seq<string>)
    ensures files == map[] ==> EntryCount(files, paths) == 0
  {
    if paths != [] { NothingToCount(files, paths[..|paths| - 1]); }
  }
}
