/**
  An indexing run. The manifest records what each file held when it was last
  indexed; the store holds the rows of its chunks. A run reads the discovered
  files that it cannot prove current, replaces the rows and entries of those
  that changed, and drops what is no longer there.

  The chunker is a function from a path and its bytes; embedding, and with it the
  vector dimension, is a parameter of the run.
 */
module SemanticIndex {
  import opened Wrappers
  import opened PathFilters
  import opened SemanticStore
  import opened Discovery
  import FileTree

  const STAMP_RACY_SLACK: nat := FileTree.SLACK

  /** `modified` is in nanoseconds from the Unix epoch, and may lie before it. */
  datatype Seen = Seen(path: string, size: nat, modified: Option<int>, content: string)

  datatype Entry = Entry(hash: Digest<string>, chunkIds: seq<string>, indexedAt: nat, size: Option<nat>,
                         mtime: Option<nat>)

  datatype Source = NotUtf8 | Chunks(ids: seq<string>)

  type Manifest = map<string, Entry>

  type Chunker = (string, string) -> Source

  /** What one run is asked and shown: `floor` is a time taken before any file was looked at. */
  datatype Run = Run(seen: seq<Seen>, filter: PathFilter, force: bool, floor: int, dim: nat, now: nat)

  function MtimeNanos(modified: Option<int>): Option<nat> {
    if modified.Some? && 0 <= modified.value < 0x1_0000_0000_0000_0000 then Some(modified.value) else None
  }

  /** The stamp to record: only a modification time that is race-free. */
  function RecordableStamp(modified: Option<int>, floor: int): Option<nat> {
    if modified.Some? && modified.value + STAMP_RACY_SLACK <= floor then MtimeNanos(modified) else None
  }

  predicate IsCurrent(files: Manifest, path: string, hash: Digest<string>) {
    path in files && files[path].hash == hash
  }

  predicate IsCurrentByStamp(files: Manifest, path: string, size: nat, nanos: nat) {
    path in files && files[path].size == Some(size) && files[path].mtime == Some(nanos)
  }

  // --- One file -------------------------------------------------------------

  datatype Decision = SkipByStamp | RefreshStamp | SkipUnindexable | Replace(ids: seq<string>)

  predicate StampMatches(files: Manifest, f: Seen) {
    MtimeNanos(f.modified).Some? && IsCurrentByStamp(files, f.path, f.size, MtimeNanos(f.modified).value)
  }

  function Decide(files: Manifest, f: Seen, force: bool, chunk: Chunker): Decision {
    if !force && StampMatches(files, f) then SkipByStamp
    else if !force && IsCurrent(files, f.path, Sha256(f.content)) then RefreshStamp
    else
      match chunk(f.path, f.content)
      case NotUtf8 => SkipUnindexable
      case Chunks(ids) => if ids == [] then SkipUnindexable else Replace(ids)
  }

  function Stamped(e: Entry, f: Seen, floor: int): Entry {
    e.(size := Some(f.size), mtime := RecordableStamp(f.modified, floor))
  }

  datatype Pending = Pending(file: Seen, ids: seq<string>)

  datatype Scanned = Scanned(files: Manifest, pending: seq<Pending>, refreshed: bool, skipped: nat)

  function ScanOne(s: Scanned, f: Seen, run: Run, chunk: Chunker): Scanned {
    match Decide(s.files, f, run.force, chunk)
    case SkipByStamp => s
    case RefreshStamp =>
      if f.path !in s.files then s
      else
        var e := s.files[f.path];
        s.(files := s.files[f.path := Stamped(e, f, run.floor)],
           refreshed := s.refreshed || Stamped(e, f, run.floor) != e)
    case SkipUnindexable => s.(skipped := s.skipped + 1)
    case Replace(ids) => s.(pending := s.pending + [Pending(f, ids)])
  }

  function Scan(files: Manifest, seen: seq<Seen>, run: Run, chunk: Chunker): Scanned {
    if seen == [] then Scanned(files, [], false, 0)
    else ScanOne(Scan(files, seen[..|seen| - 1], run, chunk), seen[|seen| - 1], run, chunk)
  }

  // --- The new manifest and rows --------------------------------------------

  function FreshEntry(p: Pending, run: Run): Entry {
    Entry(Sha256(p.file.content), p.ids, run.now, Some(p.file.size), RecordableStamp(p.file.modified, run.floor))
  }

  function Inserted(files: Manifest, pending: seq<Pending>, run: Run): Manifest {
    if pending == [] then files
    else
      var last := pending[|pending| - 1];
      Inserted(files, pending[..|pending| - 1], run)[last.file.path := FreshEntry(last, run)]
  }

  /** The rows of a file's chunks. */
  function ChunkRows(root: string, path: string, ids: seq<string>): seq<Row> {
    if ids == [] then []
    else ChunkRows(root, path, ids[..|ids| - 1]) + [Row(root, path, LanguageOf(path), ids[|ids| - 1])]
  }

  function Records(root: string, pending: seq<Pending>): seq<Row> {
    if pending == [] then []
    else
      var last := pending[|pending| - 1];
      Records(root, pending[..|pending| - 1]) + ChunkRows(root, last.file.path, last.ids)
  }

  function PathsOf(pending: seq<Pending>): seq<string> {
    if pending == [] then [] else PathsOf(pending[..|pending| - 1]) + [pending[|pending| - 1].file.path]
  }

  function SeenPaths(seen: seq<Seen>): seq<string> {
    if seen == [] then [] else SeenPaths(seen[..|seen| - 1]) + [seen[|seen| - 1].path]
  }

  function RowsAt(tables: map<nat, seq<Row>>, dim: nat): seq<Row> { if dim in tables then tables[dim] else [] }

  datatype State = State(files: Manifest, dim: Option<nat>, tables: map<nat, seq<Row>>)

  /** The stale paths, in the order of the run. */
  ghost predicate StaleList(files: Manifest, filter: PathFilter, seen: seq<string>, stale: seq<string>) {
    && Distinct(stale)
    && forall p :: p in stale <==> p in files && filter.Contains(p) && p !in seen
  }

  function Without(files: Manifest, stale: seq<string>): Manifest {
    map p | p in files && p !in stale :: files[p]
  }

  /** The state a run leaves, given its list of stale paths. */
  function After(s: State, run: Run, chunk: Chunker, root: string, stale: seq<string>): State {
    var scan := Scan(s.files, run.seen, run, chunk);
    if scan.pending == [] then
      State(Without(scan.files, stale), s.dim,
            if stale != [] && s.dim.Some? && s.dim.value in s.tables
            then s.tables[s.dim.value := Remaining(s.tables[s.dim.value], root, stale)] else s.tables)
    else
      var changed := PathsOf(scan.pending) + stale;
      State(Without(Inserted(scan.files, scan.pending, run), stale), Some(run.dim),
            s.tables[run.dim := Remaining(RowsAt(s.tables, run.dim), root, changed) + Records(root, scan.pending)])
  }

  function EntryCount(files: Manifest, paths: seq<string>): nat {
    if paths == [] then 0
    else
      var last := paths[|paths| - 1];
      EntryCount(files, paths[..|paths| - 1]) + if last in files then |files[last].chunkIds| else 0
  }

  function IdCount(pending: seq<Pending>): nat {
    if pending == [] then 0 else IdCount(pending[..|pending| - 1]) + |pending[|pending| - 1].ids|
  }

  datatype Summary = Summary(updatedFiles: nat, updatedChunks: nat, skippedFiles: nat, deletedChunks: nat)

  // --- The program ----------------------------------------------------------

  /** The manifest and the store of one workspace. */
  class WorkspaceIndex {
    const root: string
    var files: Manifest
    var dim: Option<nat>
    var tables: map<nat, seq<Row>>

    constructor (root: string)
      ensures this.root == root && Value() == State(map[], None, map[])
    {
      this.root := root;
      files, dim, tables := map[], None, map[];
    }

    function Value(): State
      reads this
    {
      State(files, dim, tables)
    }

    /** Every manifest path under the filter that was not discovered. */
    method StalePathsUnder(filter: PathFilter, discovered: seq<string>) returns (stale: seq<string>)
      ensures StaleList(files, filter, discovered, stale)
    {
      stale := [];
      var keys := files.Keys;
      while keys != {}
        invariant keys <= files.Keys
        invariant Distinct(stale)
        invariant forall p :: p in stale <==> p in files && p !in keys && filter.Contains(p) && p !in discovered
        decreases |keys|
      {
        var p :| p in keys;
        keys := keys - {p};
        if filter.Contains(p) && p !in discovered {
          assert (stale + [p])[..|stale|] == stale;
          stale := stale + [p];
        }
      }
    }

    /** Updates the stamp of an entry; whether it changed. */
    method Refresh(path: string, size: nat, mtime: Option<nat>) returns (changed: bool)
      modifies this`files
      ensures path !in old(files) ==> !changed && files == old(files)
      ensures path in old(files) ==>
        var e := old(files)[path].(size := Some(size), mtime := mtime);
        files == old(files)[path := e] && changed == (e != old(files)[path])
    {
      if path !in files { return false; }
      if files[path].size == Some(size) && files[path].mtime == mtime {
        assert files[path].(size := Some(size), mtime := mtime) == files[path];
        return false;
      }
      files := files[path := files[path].(size := Some(size), mtime := mtime)];
      changed := true;
    }

    method RemovePaths(paths: seq<string>)
      modifies this`files
      ensures files == Without(old(files), paths)
    {
      for i := 0 to |paths|
        invariant files == Without(old(files), paths[..i])
      {
        assert paths[..i + 1] == paths[..i] + [paths[i]];
        files := files - {paths[i]};
      }
      assert paths[..|paths|] == paths;
    }

    method ChunkCountForPaths(paths: seq<string>) returns (n: nat)
      ensures n == EntryCount(files, paths)
    {
      n := 0;
      for i := 0 to |paths|
        invariant n == EntryCount(files, paths[..i])
      {
        assert paths[..i + 1][..i] == paths[..i];
        if paths[i] in files { n := n + |files[paths[i]].chunkIds|; }
      }
      assert paths[..|paths|] == paths;
    }

    /** The files and chunks indexed under a filter, with the paths counted. */
    method IndexedCountsUnder(filter: PathFilter) returns (fileCount: nat, chunkCount: nat, ghost counted: seq<string>)
      ensures Distinct(counted) && forall p :: p in counted <==> p in files && filter.Contains(p)
      ensures fileCount == |counted| && chunkCount == EntryCount(files, counted)
    {
      fileCount, chunkCount, counted := 0, 0, [];
      var keys := files.Keys;
      while keys != {}
        invariant keys <= files.Keys && Distinct(counted)
        invariant forall p :: p in counted <==> p in files && p !in keys && filter.Contains(p)
        invariant fileCount == |counted| && chunkCount == EntryCount(files, counted)
        decreases |keys|
      {
        var p :| p in keys;
        keys := keys - {p};
        if filter.Contains(p) {
          assert (counted + [p])[..|counted|] == counted;
          counted := counted + [p];
          fileCount, chunkCount := fileCount + 1, chunkCount + |files[p].chunkIds|;
        }
      }
    }

    /** Looks at every discovered file, in order. */
    method ScanFiles(run: Run, chunk: Chunker) returns (pending: seq<Pending>, refreshed: bool, skipped: nat)
      modifies this`files
      ensures Scan(old(files), run.seen, run, chunk) == Scanned(files, pending, refreshed, skipped)
    {
      hide Scan, RecordableStamp;
      NothingScanned(files, run, chunk);
      pending, refreshed, skipped := [], false, 0;
      for i := 0 to |run.seen|
        invariant Scan(old(files), run.seen[..i], run, chunk) == Scanned(files, pending, refreshed, skipped)
      {
        var f := run.seen[i];
        ScanPrefix(old(files), run, chunk, i);
        var observed := MtimeNanos(f.modified);
        if !run.force && observed.Some? && IsCurrentByStamp(files, f.path, f.size, observed.value) { continue; }
        if !run.force && IsCurrent(files, f.path, Sha256(f.content)) {
          var changed := Refresh(f.path, f.size, RecordableStamp(f.modified, run.floor));
          if changed { refreshed := true; }
          continue;
        }
        match chunk(f.path, f.content) {
          case NotUtf8 => skipped := skipped + 1;
          case Chunks(ids) =>
            if ids == [] { skipped := skipped + 1; } else { pending := pending + [Pending(f, ids)]; }
        }
      }
      assert run.seen[..|run.seen|] == run.seen;
    }

    /** The rows of the pending files, in order. */
    method BuildRecords(pending: seq<Pending>) returns (records: seq<Row>)
      ensures records == Records(root, pending)
    {
      records := [];
      for i := 0 to |pending|
        invariant records == Records(root, pending[..i])
      {
        assert pending[..i + 1][..i] == pending[..i];
        var path, ids := pending[i].file.path, pending[i].ids;
        ghost var before := records;
        for k := 0 to |ids|
          invariant records == before + ChunkRows(root, path, ids[..k])
        {
          assert ids[..k + 1][..k] == ids[..k];
          records := records + [Row(root, path, LanguageOf(path), ids[k])];
        }
        assert ids[..|ids|] == ids;
      }
      assert pending[..|pending|] == pending;
    }

    method InsertEntries(pending: seq<Pending>, run: Run) returns (updated: nat)
      modifies this`files
      ensures files == Inserted(old(files), pending, run) && updated == |pending|
    {
      updated := 0;
      for i := 0 to |pending|
        invariant files == Inserted(old(files), pending[..i], run) && updated == i
      {
        assert pending[..i + 1][..i] == pending[..i];
        updated := updated + 1;
        files := files[pending[i].file.path := FreshEntry(pending[i], run)];
      }
      assert pending[..|pending|] == pending;
    }

    /** A successful run. */
    method IndexWorkspace(run: Run, chunk: Chunker) returns (summary: Summary, ghost stale: seq<string>)
      requires dim.Some? ==> dim.value in tables
      modifies this
      ensures StaleList(old(files), run.filter, SeenPaths(run.seen), stale)
      ensures Value() == After(old(Value()), run, chunk, root, stale)
      ensures dim.Some? ==> dim.value in tables
      ensures var scan := Scan(old(files), run.seen, run, chunk);
        && summary.updatedFiles == |scan.pending| && summary.updatedChunks == IdCount(scan.pending)
        && summary.skippedFiles == scan.skipped
        && summary.deletedChunks == EntryCount(scan.files, PathsOf(scan.pending) + stale)
    {
      hide Scan, Remaining, Records, Inserted, EntryCount, Without, StaleList;
      var gone := StalePathsUnder(run.filter, SeenPaths(run.seen));
      stale := gone;
      var pending, refreshed, skipped := ScanFiles(run, chunk);
      if pending == [] {
        assert PathsOf(pending) + gone == gone;
        var deleted := ChunkCountForPaths(gone);
        if gone == [] {
          WithoutNothing(files);
        } else {
          if dim.Some? {
            var rows, _ := DeletePaths(tables[dim.value], root, gone);
            tables := tables[dim.value := rows];
          }
          RemovePaths(gone);
        }
        summary := Summary(0, 0, skipped, deleted);
      } else {
        var changed := PathsOf(pending) + gone;
        var deleted := ChunkCountForPaths(changed);
        var rows, _ := DeletePaths(RowsAt(tables, run.dim), root, changed);
        var records := BuildRecords(pending);
        RecordCount(root, pending);
        tables := tables[run.dim := rows + records];
        var updated := InsertEntries(pending, run);
        RemovePaths(gone);
        dim := Some(run.dim);
        summary := Summary(updated, |records|, skipped, deleted);
      }
    }
  }

  lemma NothingScanned(files: Manifest, run: Run, chunk: Chunker)
    ensures run.seen[..0] == [] && Scan(files, [], run, chunk) == Scanned(files, [], false, 0)
  {
  }

  lemma ScanPrefix(files: Manifest, run: Run, chunk: Chunker, i: nat)
    requires i < |run.seen|
    ensures Scan(files, run.seen[..i + 1], run, chunk) ==
            ScanOne(Scan(files, run.seen[..i], run, chunk), run.seen[i], run, chunk)
  {
    assert run.seen[..i + 1][..i] == run.seen[..i];
  }

  lemma WithoutNothing(files: Manifest)
    ensures Without(files, []) == files
  {
  }

  lemma {:induction false} RowCount(root: string, path: string, ids: seq<string>)
    ensures |ChunkRows(root, path, ids)| == |ids|
  {
    if ids != [] { RowCount(root, path, ids[..|ids| - 1]); }
  }

  lemma {:induction false} RecordCount(root: string, pending: seq<Pending>)
    ensures |Records(root, pending)| == IdCount(pending)
  {
    if pending != [] {
      RecordCount(root, pending[..|pending| - 1]);
      RowCount(root, pending[|pending| - 1].file.path, pending[|pending| - 1].ids);
    }
  }
}
