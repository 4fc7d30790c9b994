/**
  Indexing runs over a workspace that others write to at any time: a file's
  metadata is observed at one moment and its content read at another, later one.
  The stamp fast path is sound over every such history, and so the index is
  current after every run.
 */
module StampSafety {
  import opened Wrappers
  import opened PathFilters
  import opened SemanticStore
  import opened SemanticIndex
  import opened SemanticRuns
  import FileTree

  /** The names between the slashes. */
  function Components(s: string): seq<string> {
    var i := FindSlash(s, 0);
    if i == |s| then [s] else [s[..i]] + Components(s[i + 1..])
  }

  /** A file as a run met it: observed at step `at` of the history, read at step `readAt`. */
  datatype Look = Look(path: string, at: nat, readAt: nat)

  /** A run between two steps of the history; its floor is the clock at `start`. */
  datatype Visit = Visit(looks: seq<Look>, start: nat, end: nat, filter: PathFilter, force: bool, dim: nat, now: nat)

  predicate IsFileAt(h: seq<FileTree.Tree>, p: string, i: nat)
    requires i < |h|
  {
    FileTree.KindOf(h[i], Components(p)) == FileTree.RegularFile
  }

  function NodeAt(h: seq<FileTree.Tree>, p: string, i: nat): (n: FileTree.Node)
    requires i < |h| && IsFileAt(h, p, i)
    ensures n.File?
  {
    h[i].nodes[Components(p)]
  }

  /** A run that succeeded: each file was there when observed and when read. */
  predicate Seeable(h: seq<FileTree.Tree>, v: Visit) {
    && v.start <= v.end < |h|
    && forall k :: 0 <= k < |v.looks| ==>
         && v.start <= v.looks[k].at <= v.looks[k].readAt <= v.end
         && IsFileAt(h, v.looks[k].path, v.looks[k].at) && IsFileAt(h, v.looks[k].path, v.looks[k].readAt)
  }

  function SeenOf(h: seq<FileTree.Tree>, l: Look): Seen
    requires l.at < |h| && l.readAt < |h| && IsFileAt(h, l.path, l.at) && IsFileAt(h, l.path, l.readAt)
  {
    var observed := NodeAt(h, l.path, l.at);
    Seen(l.path, |observed.content|, Some(observed.modified), NodeAt(h, l.path, l.readAt).content)
  }

  function RunOf(h: seq<FileTree.Tree>, v: Visit): Run
    requires Seeable(h, v)
  {
    Run(seq(|v.looks|, k requires 0 <= k < |v.looks| => SeenOf(h, v.looks[k])),
        v.filter, v.force, h[v.start].clock, v.dim, v.now)
  }

  // --- The racy-stamp rule --------------------------------------------------

  /** From step `n` on, whenever the file shows the recorded time it holds the recorded content. */
  ghost predicate TrustedEntry(h: seq<FileTree.Tree>, p: string, e: Entry, n: nat) {
    forall j :: n <= j < |h| && IsFileAt(h, p, j) && e.mtime == Some(NodeAt(h, p, j).modified) ==>
      e.hash == Sha256(NodeAt(h, p, j).content)
  }

  ghost predicate Trusted(h: seq<FileTree.Tree>, files: Manifest, n: nat) {
    forall p :: p in files ==> TrustedEntry(h, p, files[p], n)
  }

  /**
    A stamp passed by the slack rule pins the content: were the file written
    after the floor, its modification time would have moved past the stamp.
   */
  lemma RecordedStampPins(h: seq<FileTree.Tree>, g: nat, l: Look, start: nat, e: Entry, n: nat)
    requires FileTree.History(h, g)
    requires start <= l.at <= l.readAt <= n < |h| && IsFileAt(h, l.path, l.at) && IsFileAt(h, l.path, l.readAt)
    requires e.hash == Sha256(NodeAt(h, l.path, l.readAt).content)
    requires e.mtime == RecordableStamp(Some(NodeAt(h, l.path, l.at).modified), h[start].clock)
    ensures TrustedEntry(h, l.path, e, n)
  {
    forall j | n <= j < |h| && IsFileAt(h, l.path, j) && e.mtime == Some(NodeAt(h, l.path, j).modified)
      ensures e.hash == Sha256(NodeAt(h, l.path, j).content)
    {
      FileTree.SlackPassesGranule(NodeAt(h, l.path, j).modified, h[start].clock, g);
      FileTree.QuietSince(h, g, Components(l.path), start, l.readAt, j);
    }
  }

  lemma FoundLook(h: seq<FileTree.Tree>, v: Visit, p: string) returns (l: Look)
    requires Seeable(h, v) && Found(RunOf(h, v).seen, p).Some?
    ensures l in v.looks && l.path == p && v.start <= l.at <= l.readAt <= v.end
    ensures IsFileAt(h, p, l.at) && IsFileAt(h, p, l.readAt) && Found(RunOf(h, v).seen, p).value == SeenOf(h, l)
  {
    var seen := RunOf(h, v).seen;
    FoundSeen(seen, p);
    var k :| 0 <= k < |seen| && seen[k] == Found(seen, p).value;
    l := v.looks[k];
  }

  lemma EntryStaysTrusted(h: seq<FileTree.Tree>, g: nat, files: Manifest, v: Visit, chunk: Chunker, p: string, n: nat)
    requires FileTree.History(h, g) && Seeable(h, v) && n <= v.start && Trusted(h, files, n)
    requires EntryAfter(files, RunOf(h, v), chunk, p).Some?
    ensures TrustedEntry(h, p, EntryAfter(files, RunOf(h, v), chunk, p).value, v.end)
  {
    hide Trusted, TrustedEntry, RecordableStamp, Seeable;
    SeeableEnds(h, v);
    var run := RunOf(h, v);
    var e := EntryAfter(files, run, chunk, p).value;
    var j := Judge(files, run, chunk, p);
    if j.Reindexed? || j.Restamped? {
      var l := FoundLook(h, v, p);
      RecordedStampPins(h, g, l, v.start, e, v.end);
    } else {
      StillTrusted(h, files, p, n, v.end);
    }
  }

  lemma SeeableEnds(h: seq<FileTree.Tree>, v: Visit)
    requires Seeable(h, v)
    ensures v.start <= v.end < |h|
  {
  }

  lemma StillTrusted(h: seq<FileTree.Tree>, files: Manifest, p: string, n: nat, m: nat)
    requires Trusted(h, files, n) && p in files
    ensures n <= m ==> TrustedEntry(h, p, files[p], m)
  {
    assert TrustedEntry(h, p, files[p], n);
  }

  lemma RunKeepsTrust(h: seq<FileTree.Tree>, g: nat, s: State, v: Visit, chunk: Chunker, root: string,
                      stale: seq<string>, n: nat)
    requires FileTree.History(h, g) && Seeable(h, v) && n <= v.start && Trusted(h, s.files, n)
    requires Proper(s, RunOf(h, v), stale)
    ensures Trusted(h, After(s, RunOf(h, v), chunk, root, stale).files, v.end)
  {
    hide After, EntryAfter, TrustedEntry, Proper;
    var a := After(s, RunOf(h, v), chunk, root, stale);
    forall p | p in a.files
      ensures TrustedEntry(h, p, a.files[p], v.end)
    {
      ManifestAfter(s, RunOf(h, v), chunk, root, stale, p);
      EntryStaysTrusted(h, g, s.files, v, chunk, p, n);
    }
  }

  // --- Every run ------------------------------------------------------------

  /** One finished run and the stale paths it dropped. */
  datatype Finished = Finished(visit: Visit, stale: seq<string>)

  /** When the last run ended. */
  function LastEnd(log: seq<Finished>): nat { if log == [] then 0 else log[|log| - 1].visit.end }

  /** Runs one after another, incremental and forced in any mix, all of one vector dimension. */
  ghost predicate Sensible(h: seq<FileTree.Tree>, log: seq<Finished>, chunk: Chunker, root: string, dim: nat) {
    log == [] ||
    var front, last := log[..|log| - 1], log[|log| - 1];
    && Sensible(h, front, chunk, root, dim)
    && Seeable(h, last.visit) && LastEnd(front) <= last.visit.start && last.visit.dim == dim
    && Proper(Reached(h, front, chunk, root), RunOf(h, last.visit), last.stale)
  }

  function Reached(h: seq<FileTree.Tree>, log: seq<Finished>, chunk: Chunker, root: string): State {
    if log == [] then State(map[], None, map[])
    else
      var s := Reached(h, log[..|log| - 1], chunk, root);
      if Seeable(h, log[|log| - 1].visit)
      then After(s, RunOf(h, log[|log| - 1].visit), chunk, root, log[|log| - 1].stale)
      else s
  }

  /** What holds after any sequence of runs, whatever was written while they ran. */
  lemma {:induction false} EveryRun(h: seq<FileTree.Tree>, g: nat, log: seq<Finished>, chunk: Chunker, root: string,
                                    dim: nat)
    requires FileTree.History(h, g) && Sensible(h, log, chunk, root, dim)
    ensures var s := Reached(h, log, chunk, root);
      InStep(s, root, dim) && Faithful(s.files, chunk) && Trusted(h, s.files, LastEnd(log))
  {
    hide After, InStep, Faithful, Trusted, Proper, Seeable, FileTree.History;
    if log == [] {
      StartsInStep(root, dim);
      EmptyManifest(h, chunk);
    } else {
      var front, last := log[..|log| - 1], log[|log| - 1];
      EveryRun(h, g, front, chunk, root, dim);
      var s := Reached(h, front, chunk, root);
      RunKeepsStep(s, RunOf(h, last.visit), chunk, root, last.stale);
      RunKeepsFaith(s, RunOf(h, last.visit), chunk, root, last.stale);
      RunKeepsTrust(h, g, s, last.visit, chunk, root, last.stale, LastEnd(front));
    }
  }

  lemma EmptyManifest(h: seq<FileTree.Tree>, chunk: Chunker)
    ensures Faithful(map[], chunk) && Trusted(h, map[], 0)
  {
  }

  /** The fast path skips a file only when the content it held as it was observed is the content indexed. */
  lemma FastPathIsSound(h: seq<FileTree.Tree>, g: nat, log: seq<Finished>, chunk: Chunker, root: string, dim: nat,
                        v: Visit, l: Look)
    requires FileTree.History(h, g) && Sensible(h, log, chunk, root, dim)
    requires Seeable(h, v) && LastEnd(log) <= v.start && l in v.looks
    requires IsFileAt(h, l.path, l.at) && IsFileAt(h, l.path, l.readAt)
    ensures var files := Reached(h, log, chunk, root).files;
      StampMatches(files, SeenOf(h, l)) ==> files[l.path].hash == Sha256(NodeAt(h, l.path, l.at).content)
  {
    EveryRun(h, g, log, chunk, root, dim);
    hide Reached, InStep, Faithful, FileTree.History, Sensible;
    var files := Reached(h, log, chunk, root).files;
    if StampMatches(files, SeenOf(h, l)) {
      assert TrustedEntry(h, l.path, files[l.path], LastEnd(log));
      assert NodeAt(h, l.path, l.at).modified == SeenOf(h, l).modified.value;
    }
  }

  /** The file held the same content when it was read as when it was observed. */
  predicate Steady(h: seq<FileTree.Tree>, l: Look)
    requires l.at < |h| && l.readAt < |h| && IsFileAt(h, l.path, l.at) && IsFileAt(h, l.path, l.readAt)
  {
    NodeAt(h, l.path, l.at).content == NodeAt(h, l.path, l.readAt).content
  }

  function IdsIn(source: Source): seq<string> { if source.Chunks? then source.ids else [] }

  /**
    After any run, incremental or forced, the rows of a file that held still are
    the chunks of its content, with one exception: a file that was indexed once
    and has since become blank or ceased to be UTF-8 keeps its old rows.
   */
  lemma IndexIsCurrentExactly(h: seq<FileTree.Tree>, g: nat, log: seq<Finished>, chunk: Chunker, root: string,
                              dim: nat, l: Look)
    requires FileTree.History(h, g) && log != [] && Sensible(h, log, chunk, root, dim)
    requires l in log[|log| - 1].visit.looks && l.at < |h| && l.readAt < |h|
    requires IsFileAt(h, l.path, l.at) && IsFileAt(h, l.path, l.readAt) && Steady(h, l)
    ensures var before, now := Reached(h, log[..|log| - 1], chunk, root), Reached(h, log, chunk, root);
      var content := NodeAt(h, l.path, l.at).content;
      ChunkIdsOf(Rows(now), root, l.path) == IdsIn(chunk(l.path, content)) <==>
      (IdsIn(chunk(l.path, content)) != [] || l.path !in before.files)
  {
    var front, last := log[..|log| - 1], log[|log| - 1];
    var s, run, content := Reached(h, front, chunk, root), RunOf(h, last.visit), NodeAt(h, l.path, l.at).content;
    assert Reached(h, log, chunk, root) == After(s, run, chunk, root, last.stale);
    EveryRun(h, g, front, chunk, root, dim);
    FastPathIsSound(h, g, front, chunk, root, dim, last.visit, l);
    LookIsFound(h, last.visit, l, Reached(h, front, chunk, root), last.stale);
    hide Reached, After, InStep, Trusted, Seeable, FileTree.History, Sensible, Rows, ChunkIdsOf, Proper;
    ManifestAfter(s, run, chunk, root, last.stale, l.path);
    StepHolds(s, run, chunk, root, last.stale, l.path);
    ContentIndexed(s.files, run, chunk, SeenOf(h, l));
  }

  lemma LookIsFound(h: seq<FileTree.Tree>, v: Visit, l: Look, s: State, stale: seq<string>)
    requires Seeable(h, v) && l in v.looks && Proper(s, RunOf(h, v), stale)
    ensures l.at < |h| && l.readAt < |h| && IsFileAt(h, l.path, l.at) && IsFileAt(h, l.path, l.readAt)
    ensures Found(RunOf(h, v).seen, l.path) == Some(SeenOf(h, l))
  {
    var seen := RunOf(h, v).seen;
    var k :| 0 <= k < |v.looks| && v.looks[k] == l;
    assert seen[k] == SeenOf(h, l);
    FoundOnly(seen, k);
  }

  lemma {:induction false} SeenPathAt(seen: seq<Seen>, k: nat)
    requires k < |seen|
    ensures |SeenPaths(seen)| == |seen| && SeenPaths(seen)[k] == seen[k].path
  {
    if k < |seen| - 1 { SeenPathAt(seen[..|seen| - 1], k); }
    else if |seen| > 1 { SeenPathAt(seen[..|seen| - 1], 0); }
  }

  lemma {:induction false} FoundOnly(seen: seq<Seen>, k: nat)
    requires k < |seen| && Distinct(SeenPaths(seen))
    ensures Found(seen, seen[k].path) == Some(seen[k])
  {
    var front := seen[..|seen| - 1];
    if k < |seen| - 1 {
      assert SeenPaths(seen)[..|SeenPaths(seen)| - 1] == SeenPaths(front);
      SeenPathAt(front, k);
      FoundOnly(front, k);
    }
  }

  lemma ContentIndexed(files: Manifest, run: Run, chunk: Chunker, f: Seen)
    requires Found(run.seen, f.path) == Some(f) && Faithful(files, chunk)
    requires StampMatches(files, f) ==> files[f.path].hash == Sha256(f.content)
    ensures var e, ids := EntryAfter(files, run, chunk, f.path), IdsIn(chunk(f.path, f.content));
      (if e.Some? then e.value.chunkIds else []) == ids <==> (ids != [] || f.path !in files)
  {
  }

  /** On files that hold still, an incremental run at any point of any history does what a forced one does. */
  lemma AnyRunEqualsForced(h: seq<FileTree.Tree>, g: nat, log: seq<Finished>, chunk: Chunker, root: string, v: Visit,
                           stale: seq<string>, p: string)
    requires FileTree.History(h, g) && Sensible(h, log, chunk, root, v.dim)
    requires Seeable(h, v) && LastEnd(log) <= v.start && Proper(Reached(h, log, chunk, root), RunOf(h, v), stale)
    requires forall k :: 0 <= k < |v.looks| ==> Steady(h, v.looks[k])
    ensures var s, run := Reached(h, log, chunk, root), RunOf(h, v);
      SameIndex(After(s, run.(force := false), chunk, root, stale), After(s, run.(force := true), chunk, root, stale),
                root, p)
  {
    var s, run := Reached(h, log, chunk, root), RunOf(h, v);
    EveryRun(h, g, log, chunk, root, v.dim);
    forall f | f in run.seen && StampMatches(s.files, f)
      ensures s.files[f.path].hash == Sha256(f.content)
    {
      var k :| 0 <= k < |run.seen| && run.seen[k] == f;
      FastPathIsSound(h, g, log, chunk, root, v.dim, v, v.looks[k]);
    }
    hide Reached, After, FileTree.History, Sensible, Seeable, Faithful, InStep;
    IncrementalEqualsForced(s, run, chunk, root, stale, p);
  }
}
