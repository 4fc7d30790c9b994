/**
  The fingerprint of every file that controls ignore decisions in a scope, and
  the two ways of asking whether it changed: comparing it with a freshly built
  one, and validating it in place against the tree.
 */
module IgnoreFingerprint {
  import opened Wrappers
  import opened FileTree
  import opened PathOrder

  datatype Reason =
    | IgnoreFileChanged
    | GitignoreChanged
    | GitExcludeChanged
    | GlobalIgnoreChanged
    | IgnoreRulesChanged

  /** `marker` is the change time where the platform reports one. */
  datatype Stamp = Stamp(len: nat, modified: nat, marker: Option<nat>)

  datatype ControlStamp = ControlStamp(metadata: Stamp, hash: Digest<string>)

  datatype Entry = Entry(path: Path, reason: Reason, stamp: Option<ControlStamp>)

  datatype Fingerprint = Fingerprint(entries: seq<Entry>, gitDirs: set<Path>) {

    /** Walks both sorted entry lists; the first path where they part gives the reason. */
    method ChangeReason(current: Fingerprint) returns (r: Option<Reason>)
      ensures r == if this == current then None
                   else if entries == current.entries then Some(IgnoreRulesChanged)
                   else MergeReason(entries, current.entries)
    {
      if this == current { return None; }
      var i := 0;
      while i < |entries| && i < |current.entries|
        invariant i <= |entries| && i <= |current.entries|
        invariant entries[..i] == current.entries[..i]
        invariant MergeReason(entries, current.entries) == MergeReason(entries[i..], current.entries[i..])
      {
        var left, right := entries[i], current.entries[i];
        if left.path == right.path {
          if left != right {
            assert entries != current.entries;
            return Some(left.reason);
          }
          i := i + 1;
        } else if Less(left.path, right.path) {
          return Some(left.reason);
        } else {
          return Some(right.reason);
        }
      }
      if i < |entries| { return Some(entries[i].reason); }
      if i < |current.entries| { return Some(current.entries[i].reason); }
      assert entries == entries[..i] == current.entries[..i] == current.entries;
      return Some(IgnoreRulesChanged);
    }
  }

  datatype ControlKind = DirectChild | GitExclude | Global

  datatype Candidate = Candidate(reason: Reason, kind: ControlKind, directory: Option<Path>)

  /** What the running system offers: change markers or not, and the global excludes file if any. */
  datatype Platform = Platform(marked: bool, global: Option<Path>)

  function Elements(ps: seq<Path>): set<Path> { set p | p in ps }

  datatype AbsentSkip = ProbeAll | AllVerifiedDirs | VerifiedDirs(dirs: set<Path>) {
    predicate Covers(d: Path) {
      match this
      case ProbeAll => false
      case AllVerifiedDirs => true
      case VerifiedDirs(ds) => d in ds
    }
  }

  // --- Stamps ---------------------------------------------------------------

  function StampOf(node: Node, marked: bool): Stamp {
    Stamp(if node.File? then |node.content| else 0, node.modified, if marked then Some(node.changed) else None)
  }

  function ControlStampOf(t: Tree, p: Path, marked: bool): Option<ControlStamp> {
    if KindOf(t, p) != RegularFile then None
    else Some(ControlStamp(StampOf(t.nodes[p], marked), Sha256(t.nodes[p].content)))
  }

  /**
    Whether the control on disk still is what was recorded. A recorded change
    marker is trusted without looking at the content.
   */
  predicate Fresh(t: Tree, p: Path, expected: Option<ControlStamp>, marked: bool) {
    if KindOf(t, p) != RegularFile then expected.None?
    else if expected.None? then false
    else
      && expected.value.metadata == StampOf(t.nodes[p], marked)
      && (expected.value.metadata.marker.Some? || expected.value.hash == Sha256(t.nodes[p].content))
  }

  /** The file was rewritten without moving any stamp: its change marker lies. */
  predicate HiddenRewrite(t: Tree, e: Entry, marked: bool) {
    && KindOf(t, e.path) == RegularFile && e.stamp.Some?
    && e.stamp.value.metadata == StampOf(t.nodes[e.path], marked)
    && e.stamp.value.metadata.marker.Some?
    && e.stamp.value.hash != Sha256(t.nodes[e.path].content)
  }

  // --- Controls -------------------------------------------------------------

  function IgnorePath(d: Path): Path { d + [".ignore"] }
  function GitignorePath(d: Path): Path { d + [".gitignore"] }
  function GitDirPath(d: Path): Path { d + [".git"] }
  function ExcludePath(d: Path): Path { d + [".git", "info", "exclude"] }

  /** What the path `p` controls when `dirs` are the scope's directories; a directory's own control wins. */
  function CandidateFor(dirs: set<Path>, global: Option<Path>, p: Path): Option<Candidate> {
    if p != [] && Parent(p) in dirs && p == IgnorePath(Parent(p)) then
      Some(Candidate(IgnoreFileChanged, DirectChild, Some(Parent(p))))
    else if p != [] && Parent(p) in dirs && p == GitignorePath(Parent(p)) then
      Some(Candidate(GitignoreChanged, DirectChild, Some(Parent(p))))
    else if |p| >= 3 && p[..|p| - 3] in dirs && p == ExcludePath(p[..|p| - 3]) then
      Some(Candidate(GitExcludeChanged, GitExclude, Some(p[..|p| - 3])))
    else if Some(p) == global then
      Some(Candidate(GlobalIgnoreChanged, Global, None))
    else None
  }

  function ControlPaths(dirs: set<Path>, global: Option<Path>): set<Path> {
    (set d | d in dirs :: IgnorePath(d)) + (set d | d in dirs :: GitignorePath(d))
    + (set d | d in dirs :: ExcludePath(d)) + (if global.Some? then {global.value} else {})
  }

  lemma OwnCandidates(dirs: set<Path>, global: Option<Path>, d: Path)
    requires d in dirs
    ensures CandidateFor(dirs, global, IgnorePath(d)).Some?
    ensures CandidateFor(dirs, global, GitignorePath(d)).Some?
    ensures CandidateFor(dirs, global, ExcludePath(d)).Some?
  {
    assert Parent(IgnorePath(d)) == Parent(GitignorePath(d)) == d == ExcludePath(d)[..|d|];
  }

  lemma ControlPathsMeaning(dirs: set<Path>, global: Option<Path>, p: Path)
    ensures p in ControlPaths(dirs, global) <==> CandidateFor(dirs, global, p).Some?
  {
    if CandidateFor(dirs, global, p).Some? {
      hide Parent, IgnorePath, GitignorePath, ExcludePath;
      assert p in ControlPaths(dirs, global);
    } else {
      hide CandidateFor;
      forall d | d in dirs
        ensures p != IgnorePath(d) && p != GitignorePath(d) && p != ExcludePath(d)
      {
        OwnCandidates(dirs, global, d);
      }
      GlobalIsCandidate(dirs, global);
    }
  }

  lemma GlobalIsCandidate(dirs: set<Path>, global: Option<Path>)
    ensures global.Some? ==> CandidateFor(dirs, global, global.value).Some?
  {
  }

  /** The directories whose controls are enumerated: the root when there is no other control. */
  function ControlDirs(root: Path, dirs: set<Path>, global: Option<Path>): set<Path> {
    if dirs == {} && global.None? then {root} else dirs
  }

  function ControlMap(root: Path, dirs: set<Path>, global: Option<Path>): map<Path, Candidate> {
    var ds := ControlDirs(root, dirs, global);
    map p | p in ControlPaths(ds, global) && CandidateFor(ds, global, p).Some? :: CandidateFor(ds, global, p).value
  }

  function OrInsert(controls: map<Path, Candidate>, p: Path, c: Candidate): map<Path, Candidate> {
    if p in controls then controls else controls[p := c]
  }

  function PushDirectory(controls: map<Path, Candidate>, d: Path): map<Path, Candidate> {
    var c1 := OrInsert(controls, IgnorePath(d), Candidate(IgnoreFileChanged, DirectChild, Some(d)));
    var c2 := OrInsert(c1, GitignorePath(d), Candidate(GitignoreChanged, DirectChild, Some(d)));
    OrInsert(c2, ExcludePath(d), Candidate(GitExcludeChanged, GitExclude, Some(d)))
  }

  ghost predicate IsControlMap(controls: map<Path, Candidate>, dirs: set<Path>, global: Option<Path>) {
    forall p :: MapsAt(controls, dirs, global, p)
  }

  lemma ControlsDistinct(a: Path, b: Path)
    ensures IgnorePath(a) != GitignorePath(b) && IgnorePath(a) != ExcludePath(b) && GitignorePath(a) != ExcludePath(b)
  {
    var i, g, e := IgnorePath(a), GitignorePath(b), ExcludePath(b);
    assert |i[|i| - 1]| == 7 && |g[|g| - 1]| == 10 && |e[|e| - 1]| == 7 && i[|i| - 1][0] != e[|e| - 1][0];
    assert |GitignorePath(a)[|a|]| == 10;
  }

  /** One more directory adds its three controls and changes no other candidate. */
  lemma OneMoreDirectory(dirs: set<Path>, d: Path, p: Path)
    ensures CandidateFor(dirs + {d}, None, p) ==
      if CandidateFor(dirs, None, p).Some? then CandidateFor(dirs, None, p)
      else if p == IgnorePath(d) then Some(Candidate(IgnoreFileChanged, DirectChild, Some(d)))
      else if p == GitignorePath(d) then Some(Candidate(GitignoreChanged, DirectChild, Some(d)))
      else if p == ExcludePath(d) then Some(Candidate(GitExcludeChanged, GitExclude, Some(d)))
      else None
  {
    assert Parent(IgnorePath(d)) == Parent(GitignorePath(d)) == d == ExcludePath(d)[..|d|];
    ControlsDistinct(d, d);
    if p != [] { ControlsDistinct(Parent(p), d); ControlsDistinct(d, Parent(p)); }
    if |p| >= 3 { ControlsDistinct(d, p[..|p| - 3]); }
  }

  lemma PushKeepsMap(controls: map<Path, Candidate>, dirs: set<Path>, d: Path)
    requires IsControlMap(controls, dirs, None)
    ensures IsControlMap(PushDirectory(controls, d), dirs + {d}, None)
  {
    hide CandidateFor, PushDirectory;
    forall p
      ensures MapsAt(PushDirectory(controls, d), dirs + {d}, None, p)
    {
      assert MapsAt(controls, dirs, None, p);
      OneMoreDirectory(dirs, d, p);
      PushedAt(controls, d, p);
    }
  }

  predicate MapsAt(controls: map<Path, Candidate>, dirs: set<Path>, global: Option<Path>, p: Path) {
    if p in controls then CandidateFor(dirs, global, p) == Some(controls[p]) else CandidateFor(dirs, global, p) == None
  }

  lemma PushedAt(controls: map<Path, Candidate>, d: Path, p: Path)
    ensures var pushed := PushDirectory(controls, d);
      (if p in pushed then Some(pushed[p]) else None) ==
      if p in controls then Some(controls[p])
      else if p == IgnorePath(d) then Some(Candidate(IgnoreFileChanged, DirectChild, Some(d)))
      else if p == GitignorePath(d) then Some(Candidate(GitignoreChanged, DirectChild, Some(d)))
      else if p == ExcludePath(d) then Some(Candidate(GitExcludeChanged, GitExclude, Some(d)))
      else None
  {
    ControlsDistinct(d, d);
    hide IgnorePath, GitignorePath, ExcludePath;
  }

  lemma GlobalJoins(controls: map<Path, Candidate>, dirs: set<Path>, global: Option<Path>)
    requires IsControlMap(controls, dirs, None)
    ensures global.Some? ==>
      IsControlMap(OrInsert(controls, global.value, Candidate(GlobalIgnoreChanged, Global, None)), dirs, global)
    ensures global.None? ==> IsControlMap(controls, dirs, global)
  {
    if global.Some? {
      var all := OrInsert(controls, global.value, Candidate(GlobalIgnoreChanged, Global, None));
      forall p
        ensures MapsAt(all, dirs, global, p)
      {
        assert MapsAt(controls, dirs, None, p);
        assert CandidateFor(dirs, global, p) == if CandidateFor(dirs, None, p).Some? then CandidateFor(dirs, None, p)
          else if Some(p) == global then Some(Candidate(GlobalIgnoreChanged, Global, None)) else None;
      }
    }
  }

  lemma GlobalIsControl(dirs: set<Path>, p: Path)
    ensures p in ControlPaths(dirs, Some(p))
  {
  }

  lemma OwnControl(dirs: set<Path>, global: Option<Path>, d: Path)
    requires d in dirs
    ensures IgnorePath(d) in ControlPaths(dirs, global)
  {
  }

  lemma ControlIsMapped(controls: map<Path, Candidate>, dirs: set<Path>, global: Option<Path>, p: Path)
    requires IsControlMap(controls, dirs, global) && p in ControlPaths(dirs, global)
    ensures p in controls
  {
    hide CandidateFor, ControlPaths;
    ControlPathsMeaning(dirs, global, p);
    assert MapsAt(controls, dirs, global, p);
  }

  lemma SomeControl(controls: map<Path, Candidate>, dirs: set<Path>, global: Option<Path>)
    requires IsControlMap(controls, dirs, global) && controls == map[]
    ensures dirs == {} && global == None
  {
    hide CandidateFor, ControlPaths, IsControlMap;
    if global.Some? {
      GlobalIsControl(dirs, global.value);
      ControlIsMapped(controls, dirs, global, global.value);
    } else if dirs != {} {
      var d :| d in dirs;
      OwnControl(dirs, global, d);
      ControlIsMapped(controls, dirs, global, IgnorePath(d));
    }
  }

  method EnumerateControls(root: Path, directories: seq<Path>, global: Option<Path>)
    returns (controls: map<Path, Candidate>)
    ensures controls == ControlMap(root, Elements(directories), global)
  {
    hide CandidateFor, ControlPaths, ControlMap, PushDirectory, IsControlMap;
    controls := map[];
    assert IsControlMap(controls, {}, None) by { EmptyControls(); }
    assert Elements(directories[..0]) == {};
    for i := 0 to |directories|
      invariant IsControlMap(controls, Elements(directories[..i]), None)
    {
      assert Elements(directories[..i + 1]) == Elements(directories[..i]) + {directories[i]};
      PushKeepsMap(controls, Elements(directories[..i]), directories[i]);
      controls := PushDirectory(controls, directories[i]);
    }
    ghost var dirs := Elements(directories);
    assert directories[..|directories|] == directories;
    GlobalJoins(controls, dirs, global);
    if global.Some? {
      controls := OrInsert(controls, global.value, Candidate(GlobalIgnoreChanged, Global, None));
    }
    if controls == map[] {
      SomeControl(controls, dirs, global);
      PushKeepsMap(controls, {}, root);
      controls := PushDirectory(controls, root);
      assert {} + {root} == {root};
    } else {
      NoDirectoryNoControl(controls, dirs, global);
    }
    MapsAgree(controls, root, dirs, global);
  }

  lemma NoDirectoryNoControl(controls: map<Path, Candidate>, dirs: set<Path>, global: Option<Path>)
    requires IsControlMap(controls, dirs, global) && controls != map[]
    ensures dirs != {} || global.Some?
  {
    var p :| p in controls;
    assert MapsAt(controls, dirs, global, p);
  }

  lemma EmptyControls()
    ensures IsControlMap(map[], {}, None)
  {
  }

  lemma MapsAgree(controls: map<Path, Candidate>, root: Path, dirs: set<Path>, global: Option<Path>)
    requires IsControlMap(controls, ControlDirs(root, dirs, global), global)
    ensures controls == ControlMap(root, dirs, global)
  {
    hide CandidateFor, ControlPaths, ControlDirs;
    forall p
      ensures p in controls <==> p in ControlMap(root, dirs, global)
      ensures p in controls ==> controls[p] == ControlMap(root, dirs, global)[p]
    {
      assert MapsAt(controls, ControlDirs(root, dirs, global), global, p);
      ControlPathsMeaning(ControlDirs(root, dirs, global), global, p);
    }
  }

  // --- Building a fingerprint -----------------------------------------------

  function FreshEntries(t: Tree, marked: bool, controls: map<Path, Candidate>, paths: seq<Path>): (es: seq<Entry>)
    requires forall p :: p in paths ==> p in controls
    ensures |es| == |paths|
    ensures forall i :: 0 <= i < |paths| ==>
      es[i] == Entry(paths[i], controls[paths[i]].reason, ControlStampOf(t, paths[i], marked))
  {
    if paths == [] then []
    else
      [Entry(paths[0], controls[paths[0]].reason, ControlStampOf(t, paths[0], marked))]
      + FreshEntries(t, marked, controls, paths[1..])
  }

  function Fingerprinted(t: Tree, pf: Platform, root: Path, dirs: set<Path>): Fingerprint {
    var controls := ControlMap(root, dirs, pf.global);
    Fingerprint(FreshEntries(t, pf.marked, controls, InOrder(controls.Keys)),
                set d | d in dirs && KindOf(t, GitDirPath(d)) == Directory)
  }

  method RecordEntries(t: Tree, marked: bool, controls: map<Path, Candidate>, paths: seq<Path>)
    returns (entries: seq<Entry>)
    requires forall p :: p in paths ==> p in controls
    ensures entries == FreshEntries(t, marked, controls, paths)
  {
    hide ControlStampOf;
    entries := [];
    for i := 0 to |paths|
      invariant entries == FreshEntries(t, marked, controls, paths)[..i]
    {
      ghost var all := FreshEntries(t, marked, controls, paths);
      assert all[..i + 1] == all[..i] + [all[i]];
      entries := entries + [Entry(paths[i], controls[paths[i]].reason, ControlStampOf(t, paths[i], marked))];
    }
  }

  method FindGitDirs(t: Tree, directories: seq<Path>) returns (gitDirs: set<Path>)
    ensures forall d :: d in gitDirs <==> d in directories && KindOf(t, GitDirPath(d)) == Directory
  {
    gitDirs := {};
    for i := 0 to |directories|
      invariant forall d :: d in gitDirs <==> d in directories[..i] && KindOf(t, GitDirPath(d)) == Directory
    {
      if KindOf(t, GitDirPath(directories[i])) == Directory {
        gitDirs := gitDirs + {directories[i]};
      }
    }
  }

  method BuildFingerprint(t: Tree, pf: Platform, root: Path, directories: seq<Path>, noIgnore: bool)
    returns (r: Option<Fingerprint>)
    ensures r == if noIgnore then None else Some(Fingerprinted(t, pf, root, Elements(directories)))
  {
    if noIgnore { return None; }
    var controls := EnumerateControls(root, directories, pf.global);
    var entries := RecordEntries(t, pf.marked, controls, InOrder(controls.Keys));
    var gitDirs := FindGitDirs(t, directories);
    assert gitDirs == set d | d in Elements(directories) && KindOf(t, GitDirPath(d)) == Directory;
    r := Some(Fingerprint(entries, gitDirs));
  }

  // --- Comparing two fingerprints -------------------------------------------

  /** The reason at the first place where two sorted entry lists part. */
  function MergeReason(a: seq<Entry>, b: seq<Entry>): Option<Reason> {
    if a == [] && b == [] then None
    else if a == [] then Some(b[0].reason)
    else if b == [] then Some(a[0].reason)
    else if a[0].path == b[0].path then
      if a[0] != b[0] then Some(a[0].reason) else MergeReason(a[1..], b[1..])
    else if Less(a[0].path, b[0].path) then Some(a[0].reason)
    else Some(b[0].reason)
  }

  ghost predicate Sorted(es: seq<Entry>) {
    forall i, j :: 0 <= i < j < |es| ==> Less(es[i].path, es[j].path)
  }

  /** The entry of a list at a path, seen as a map. */
  function EntryAt(es: seq<Entry>, p: Path): (e: Option<Entry>)
    ensures e.Some? ==> e.value in es && e.value.path == p
  {
    if es == [] then None
    else if es[0].path == p then Some(es[0])
    else EntryAt(es[1..], p)
  }

  ghost predicate LeastDifference(a: seq<Entry>, b: seq<Entry>, p: Path) {
    && EntryAt(a, p) != EntryAt(b, p)
    && forall q :: EntryAt(a, q) != EntryAt(b, q) ==> p == q || Less(p, q)
  }

  lemma {:induction false} HeadIsLeast(a: seq<Entry>, p: Path)
    requires a != [] && Sorted(a) && !(a[0].path == p || Less(a[0].path, p))
    ensures EntryAt(a, p) == None
  {
    if |a| > 1 {
      assert Less(a[0].path, a[1].path);
      if Less(a[1].path, p) { PathTransitive(a[0].path, a[1].path, p); }
      HeadIsLeast(a[1..], p);
    }
  }

  /** The merge finds the least path at which two sorted lists differ, and only equal lists have none. */
  lemma {:induction false} MergeFindsLeastDifference(a: seq<Entry>, b: seq<Entry>)
    requires Sorted(a) && Sorted(b)
    ensures MergeReason(a, b) == None <==> a == b
    ensures a != b ==> exists p ::
      && LeastDifference(a, b, p)
      && MergeReason(a, b) ==
        Some(if EntryAt(a, p).Some? then EntryAt(a, p).value.reason else EntryAt(b, p).value.reason)
  {
    if a != [] && b != [] && a[0] == b[0] {
      MergeFindsLeastDifference(a[1..], b[1..]);
      assert a == [a[0]] + a[1..] && b == [b[0]] + b[1..];
      if a != b {
        var p :| LeastDifference(a[1..], b[1..], p)
          && MergeReason(a[1..], b[1..]) == Some(if EntryAt(a[1..], p).Some? then EntryAt(a[1..], p).value.reason
                                                 else EntryAt(b[1..], p).value.reason);
        TailDifference(a, b, p);
      }
    } else if a != [] || b != [] {
      var p := if a == [] || (b != [] && Less(b[0].path, a[0].path)) then b[0].path else a[0].path;
      if a != [] && b != [] { PathOrdered(a[0].path, b[0].path); }
      forall q | q != p && !Less(p, q)
        ensures EntryAt(a, q) == None == EntryAt(b, q)
      {
        if a != [] { HeadBound(p, a[0].path, q); HeadIsLeast(a, q); }
        if b != [] { HeadBound(p, b[0].path, q); HeadIsLeast(b, q); }
      }
      if a != [] { HeadOnly(a, p); }
      if b != [] { HeadOnly(b, p); }
      assert LeastDifference(a, b, p);
    }
  }

  lemma HeadBound(p: Path, head: Path, q: Path)
    requires p == head || Less(p, head)
    requires q != p && !Less(p, q)
    ensures !(head == q || Less(head, q))
  {
    PathOrdered(p, q);
    PathOrdered(head, q);
    if Less(head, q) && p != head { PathTransitive(p, head, q); }
  }

  lemma HeadOnly(a: seq<Entry>, p: Path)
    requires a != [] && Sorted(a) && (p == a[0].path || Less(p, a[0].path))
    ensures EntryAt(a, p) == if p == a[0].path then Some(a[0]) else None
  {
    if p != a[0].path {
      PathOrdered(p, a[0].path);
      HeadIsLeast(a, p);
    }
  }

  lemma TailDifference(a: seq<Entry>, b: seq<Entry>, p: Path)
    requires Sorted(a) && Sorted(b) && a != [] && b != [] && a[0] == b[0]
    requires LeastDifference(a[1..], b[1..], p)
    ensures LeastDifference(a, b, p) && EntryAt(a, p) == EntryAt(a[1..], p) && EntryAt(b, p) == EntryAt(b[1..], p)
  {
    TailSkipsHead(a);
    TailSkipsHead(b);
    forall q
      ensures EntryAt(a, q) != EntryAt(b, q) <==> EntryAt(a[1..], q) != EntryAt(b[1..], q)
    {
      if q == a[0].path { assert EntryAt(a[1..], q) == None == EntryAt(b[1..], q); }
    }
  }

  lemma TailSkipsHead(a: seq<Entry>)
    requires Sorted(a) && a != []
    ensures EntryAt(a[1..], a[0].path) == None
  {
    if |a| > 1 {
      assert Less(a[0].path, a[1].path);
      PathOrdered(a[0].path, a[1].path);
      HeadIsLeast(a[1..], a[0].path);
    }
  }

  // --- Validating in place --------------------------------------------------

  /** Whether a control recorded as absent may be taken as still absent without a probe. */
  predicate StillAbsent(c: Candidate, gitDirs: set<Path>, skip: AbsentSkip) {
    && c.directory.Some?
    && skip.Covers(c.directory.value)
    && match c.kind
       case DirectChild => true
       case GitExclude => c.directory.value !in gitDirs
       case Global => false
  }

  /** The merge-join of the current controls, in order, against the recorded entries. */
  function Stream(t: Tree, marked: bool, controls: map<Path, Candidate>, paths: seq<Path>,
                  expected: seq<Entry>, gitDirs: set<Path>, skip: AbsentSkip): Option<Reason>
    requires forall p :: p in paths ==> p in controls
  {
    if paths == [] then
      if expected == [] then None else Some(expected[0].reason)
    else if expected != [] && Less(expected[0].path, paths[0]) then Some(expected[0].reason)
    else if expected == [] || expected[0].path != paths[0] then Some(controls[paths[0]].reason)
    else if expected[0].stamp.None? && StillAbsent(controls[paths[0]], gitDirs, skip) then
      Stream(t, marked, controls, paths[1..], expected[1..], gitDirs, skip)
    else if !Fresh(t, paths[0], expected[0].stamp, marked) then Some(expected[0].reason)
    else Stream(t, marked, controls, paths[1..], expected[1..], gitDirs, skip)
  }

  function Validated(t: Tree, pf: Platform, root: Path, dirs: set<Path>, noIgnore: bool,
                     expected: Option<Fingerprint>, skip: AbsentSkip): Option<Reason>
  {
    var controls := ControlMap(root, dirs, pf.global);
    match expected
    case None => if noIgnore then None else Some(IgnoreRulesChanged)
    case Some(fp) =>
      if noIgnore then Some(IgnoreRulesChanged)
      else Stream(t, pf.marked, controls, InOrder(controls.Keys), fp.entries, fp.gitDirs, skip)
  }

  method MergeJoin(t: Tree, marked: bool, controls: map<Path, Candidate>, paths: seq<Path>,
                   expected: seq<Entry>, gitDirs: set<Path>, skip: AbsentSkip)
    returns (r: Option<Reason>)
    requires forall p :: p in paths ==> p in controls
    ensures r == Stream(t, marked, controls, paths, expected, gitDirs, skip)
  {
    var next := 0;
    for i := 0 to |paths|
      invariant next == i <= |expected|
      invariant Stream(t, marked, controls, paths, expected, gitDirs, skip)
             == Stream(t, marked, controls, paths[i..], expected[next..], gitDirs, skip)
    {
      assert paths[i..][1..] == paths[i + 1..];
      var path := paths[i];
      if next < |expected| && Less(expected[next].path, path) { return Some(expected[next].reason); }
      if next == |expected| || expected[next].path != path { return Some(controls[path].reason); }
      assert expected[next..][1..] == expected[next + 1..];
      var matching := expected[next];
      next := next + 1;
      if matching.stamp.None? && StillAbsent(controls[path], gitDirs, skip) { continue; }
      if !Fresh(t, path, matching.stamp, marked) { return Some(matching.reason); }
    }
    return if next < |expected| then Some(expected[next].reason) else None;
  }

  method IgnoreChangeReason(t: Tree, pf: Platform, root: Path, directories: seq<Path>, noIgnore: bool,
                            expected: Option<Fingerprint>, skip: AbsentSkip)
    returns (r: Option<Reason>)
    ensures r == Validated(t, pf, root, Elements(directories), noIgnore, expected, skip)
  {
    if expected.None? { return if noIgnore then None else Some(IgnoreRulesChanged); }
    if noIgnore { return Some(IgnoreRulesChanged); }
    var controls := EnumerateControls(root, directories, pf.global);
    r := MergeJoin(t, pf.marked, controls, InOrder(controls.Keys), expected.value.entries, expected.value.gitDirs,
                   skip);
  }

  /** One entry is fresh exactly when it equals what would be recorded now, or was rewritten unseen. */
  lemma FreshMeaning(t: Tree, p: Path, reason: Reason, stamp: Option<ControlStamp>, marked: bool)
    ensures Fresh(t, p, stamp, marked)
       <==> stamp == ControlStampOf(t, p, marked) || HiddenRewrite(t, Entry(p, reason, stamp), marked)
  {
  }

  /** What a rebuild would record, save that a recorded entry rewritten unseen is taken for unchanged. */
  function Probed(t: Tree, marked: bool, controls: map<Path, Candidate>, paths: seq<Path>, expected: seq<Entry>)
    : (es: seq<Entry>)
    requires forall p :: p in paths ==> p in controls
    ensures |es| == |paths| && forall i :: 0 <= i < |es| ==> es[i].path == paths[i]
  {
    if paths == [] then []
    else
      var now := Entry(paths[0], controls[paths[0]].reason, ControlStampOf(t, paths[0], marked));
      [Taken(t, marked, now, EntryAt(expected, paths[0]))] + Probed(t, marked, controls, paths[1..], expected)
  }

  function Taken(t: Tree, marked: bool, now: Entry, recorded: Option<Entry>): (e: Entry)
    requires recorded.Some? ==> recorded.value.path == now.path
    ensures e.path == now.path
  {
    if recorded.Some? && HiddenRewrite(t, recorded.value, marked) then recorded.value else now
  }

  /** The first recorded entry does not matter to other paths. */
  lemma {:induction false} ProbedSkips(t: Tree, marked: bool, controls: map<Path, Candidate>, paths: seq<Path>,
                                       expected: seq<Entry>)
    requires (forall p :: p in paths ==> p in controls) && expected != [] && expected[0].path !in paths
    ensures Probed(t, marked, controls, paths, expected) == Probed(t, marked, controls, paths, expected[1..])
  {
    if paths != [] {
      assert paths[0] in paths;
      ProbedSkips(t, marked, controls, paths[1..], expected);
    }
  }

  /** Reasons are those of the controls. */
  ghost predicate Reasoned(expected: seq<Entry>, controls: map<Path, Candidate>) {
    forall e :: e in expected && e.path in controls ==> e.reason == controls[e.path].reason
  }

  /**
    Probing every control gives the reason of a merge with a freshly built
    fingerprint in which entries rewritten unseen are as they were recorded.
   */
  lemma {:induction false} StreamIsMerge(t: Tree, marked: bool, controls: map<Path, Candidate>, paths: seq<Path>,
                                         expected: seq<Entry>, gitDirs: set<Path>)
    requires (forall p :: p in paths ==> p in controls) && Ascending(paths) && Reasoned(expected, controls)
    ensures Stream(t, marked, controls, paths, expected, gitDirs, ProbeAll)
         == MergeReason(expected, Probed(t, marked, controls, paths, expected))
  {
    if paths != [] && expected != [] && expected[0].path == paths[0] {
      FreshMeaning(t, paths[0], expected[0].reason, expected[0].stamp, marked);
      PathOrdered(paths[0], paths[0]);
      assert expected[0] in expected;
      LaterPaths(paths);
      ProbedSkips(t, marked, controls, paths[1..], expected);
      StreamIsMerge(t, marked, controls, paths[1..], expected[1..], gitDirs);
      var probed := Probed(t, marked, controls, paths, expected);
      assert probed[1..] == Probed(t, marked, controls, paths[1..], expected[1..]);
    }
  }

  lemma LaterPaths(paths: seq<Path>)
    requires Ascending(paths) && paths != []
    ensures Ascending(paths[1..]) && paths[0] !in paths[1..]
  {
    PathOrdered(paths[0], paths[0]);
  }

  /** The recorded list hides a rewrite of some control. */
  predicate Hides(t: Tree, marked: bool, expected: seq<Entry>, paths: seq<Path>) {
    exists i :: 0 <= i < |paths| && HiddenAt(t, marked, expected, paths[i])
  }

  predicate HiddenAt(t: Tree, marked: bool, expected: seq<Entry>, p: Path) {
    EntryAt(expected, p).Some? && HiddenRewrite(t, EntryAt(expected, p).value, marked)
  }

  /** Only a hidden rewrite makes a difference between what is probed and what a rebuild would record. */
  lemma {:induction false} ProbedExactly(t: Tree, marked: bool, controls: map<Path, Candidate>, paths: seq<Path>,
                                         expected: seq<Entry>)
    requires forall p :: p in paths ==> p in controls
    ensures Probed(t, marked, controls, paths, expected) == FreshEntries(t, marked, controls, paths)
       <==> !Hides(t, marked, expected, paths)
  {
    hide HiddenRewrite, ControlStampOf, Hides, HiddenAt, Taken, EntryAt;
    if paths == [] {
      HidesMeaning(t, marked, expected, paths);
    } else {
      var probed, now := Probed(t, marked, controls, paths, expected), FreshEntries(t, marked, controls, paths);
      ProbedExactly(t, marked, controls, paths[1..], expected);
      SameHeads(probed, now);
      HiddenDiffers(t, marked, now[0], expected);
      HidesMeaning(t, marked, expected, paths);
    }
  }

  lemma SameHeads(a: seq<Entry>, b: seq<Entry>)
    requires a != [] && b != []
    ensures a == b <==> a[0] == b[0] && a[1..] == b[1..]
  {
    assert a == [a[0]] + a[1..] && b == [b[0]] + b[1..];
  }

  lemma HidesMeaning(t: Tree, marked: bool, expected: seq<Entry>, paths: seq<Path>)
    ensures Hides(t, marked, expected, paths) <==>
            paths != [] && (HiddenAt(t, marked, expected, paths[0]) || Hides(t, marked, expected, paths[1..]))
  {
    hide HiddenAt;
    if paths != [] {
      var head, tail := paths[0], paths[1..];
      assert paths == [head] + tail;
      if HiddenAt(t, marked, expected, head) { assert paths[0] == head; }
      forall i | 0 <= i < |tail| && HiddenAt(t, marked, expected, tail[i])
        ensures Hides(t, marked, expected, paths)
      {
        var k := i + 1;
        assert paths[k] == tail[i];
      }
      forall k | 0 < k < |paths| && HiddenAt(t, marked, expected, paths[k])
        ensures Hides(t, marked, expected, tail)
      {
        assert tail[k - 1] == paths[k];
      }
    }
  }

  lemma HiddenDiffers(t: Tree, marked: bool, now: Entry, expected: seq<Entry>)
    requires now.stamp == ControlStampOf(t, now.path, marked)
    ensures Taken(t, marked, now, EntryAt(expected, now.path)) != now <==> HiddenAt(t, marked, expected, now.path)
  {
  }

  /** Without a hidden rewrite the reason is that of comparing with a freshly built fingerprint. */
  lemma StreamRefinesMerge(t: Tree, marked: bool, controls: map<Path, Candidate>, paths: seq<Path>,
                           expected: seq<Entry>, gitDirs: set<Path>)
    requires (forall p :: p in paths ==> p in controls) && Ascending(paths) && Reasoned(expected, controls)
    requires !Hides(t, marked, expected, paths)
    ensures Stream(t, marked, controls, paths, expected, gitDirs, ProbeAll)
         == MergeReason(expected, FreshEntries(t, marked, controls, paths))
  {
    StreamIsMerge(t, marked, controls, paths, expected, gitDirs);
    ProbedExactly(t, marked, controls, paths, expected);
  }

  /** With a recorded list over the same controls, validation finds nothing exactly when every
      entry still is what was recorded, up to unseen rewrites. */
  lemma {:induction false} StreamFindsNothing(t: Tree, marked: bool, controls: map<Path, Candidate>, paths: seq<Path>,
                                              expected: seq<Entry>, gitDirs: set<Path>)
    requires forall p :: p in paths ==> p in controls
    requires |expected| == |paths| && forall i :: 0 <= i < |paths| ==> expected[i].path == paths[i]
    requires forall i :: 0 <= i < |paths| ==> expected[i].reason == controls[paths[i]].reason
    ensures Stream(t, marked, controls, paths, expected, gitDirs, ProbeAll) == None
       <==> forall i :: 0 <= i < |paths| ==>
              expected[i] == FreshEntries(t, marked, controls, paths)[i] || HiddenRewrite(t, expected[i], marked)
  {
    if paths != [] {
      FreshMeaning(t, paths[0], expected[0].reason, expected[0].stamp, marked);
      PathOrdered(paths[0], paths[0]);
      StreamFindsNothing(t, marked, controls, paths[1..], expected[1..], gitDirs);
      var now, rest := FreshEntries(t, marked, controls, paths), FreshEntries(t, marked, controls, paths[1..]);
      assert forall i :: 0 <= i < |paths| - 1 ==> expected[1..][i] == expected[i + 1] && rest[i] == now[i + 1];
      assert forall i {:trigger expected[i]} :: 1 <= i < |paths| ==>
        expected[i] == expected[1..][i - 1] && now[i] == rest[i - 1];
    }
  }

  /** Skipped probes change nothing when each of them would have found no file. */
  lemma {:induction false} SkippedProbesFindNothing(t: Tree, marked: bool, controls: map<Path, Candidate>,
                                                    paths: seq<Path>,
                                                    expected: seq<Entry>, gitDirs: set<Path>, skip: AbsentSkip)
    requires forall p :: p in paths ==> p in controls
    requires forall e :: e in expected && e.stamp.None? && e.path in controls ==>
      StillAbsent(controls[e.path], gitDirs, skip) ==> KindOf(t, e.path) != RegularFile
    ensures Stream(t, marked, controls, paths, expected, gitDirs, skip)
         == Stream(t, marked, controls, paths, expected, gitDirs, ProbeAll)
  {
    if paths != [] && expected != [] && expected[0].path == paths[0] {
      assert expected[0] in expected;
      SkippedProbesFindNothing(t, marked, controls, paths[1..], expected[1..], gitDirs, skip);
    }
  }

  lemma FreshEntriesSorted(t: Tree, marked: bool, controls: map<Path, Candidate>)
    ensures Sorted(FreshEntries(t, marked, controls, InOrder(controls.Keys)))
  {
  }

  /**
    Probing every control against any recorded fingerprint: the reason is that of
    the least path where the recorded list and a freshly built one differ, leaving
    out hidden rewrites. What remains to `ChangeReason` alone is a change of the set
    of `.git` directories.
   */
  lemma ProbingRefinesComparing(t: Tree, pf: Platform, root: Path, dirs: set<Path>, fp: Fingerprint)
    requires Sorted(fp.entries) && Reasoned(fp.entries, ControlMap(root, dirs, pf.global))
    ensures var seen := ProbedEntries(t, pf, root, dirs, fp);
      var r := Validated(t, pf, root, dirs, false, Some(fp), ProbeAll);
      && r == MergeReason(fp.entries, seen)
      && (r == None <==> fp.entries == seen)
      && (fp.entries != seen ==>
            exists p ::
              && LeastDifference(fp.entries, seen, p)
              && r == Some(if EntryAt(fp.entries, p).Some? then EntryAt(fp.entries, p).value.reason
                           else EntryAt(seen, p).value.reason))
  {
    var controls := ControlMap(root, dirs, pf.global);
    StreamIsMerge(t, pf.marked, controls, InOrder(controls.Keys), fp.entries, fp.gitDirs);
    var seen := ProbedEntries(t, pf, root, dirs, fp);
    assert Sorted(seen);
    MergeFindsLeastDifference(fp.entries, seen);
  }

  function ProbedEntries(t: Tree, pf: Platform, root: Path, dirs: set<Path>, fp: Fingerprint): seq<Entry> {
    var controls := ControlMap(root, dirs, pf.global);
    Probed(t, pf.marked, controls, InOrder(controls.Keys), fp.entries)
  }

  /**
    Validating and rebuilding disagree on whether anything changed exactly when
    there is a hidden rewrite and nothing else differs.
   */
  lemma VerdictsPartExactly(t: Tree, pf: Platform, root: Path, dirs: set<Path>, fp: Fingerprint)
    requires Sorted(fp.entries) && Reasoned(fp.entries, ControlMap(root, dirs, pf.global))
    ensures var now, r := Fingerprinted(t, pf, root, dirs), Validated(t, pf, root, dirs, false, Some(fp), ProbeAll);
      (r == None) != (fp.entries == now.entries) <==>
        && fp.entries == ProbedEntries(t, pf, root, dirs, fp)
        && Hides(t, pf.marked, fp.entries, InOrder(ControlMap(root, dirs, pf.global).Keys))
  {
    var controls := ControlMap(root, dirs, pf.global);
    ProbingRefinesComparing(t, pf, root, dirs, fp);
    ProbedExactly(t, pf.marked, controls, InOrder(controls.Keys), fp.entries);
    NothingHiddenInFresh(t, pf.marked, controls, InOrder(controls.Keys));
  }

  /** A list that is what a rebuild would record hides nothing. */
  lemma NothingHiddenInFresh(t: Tree, marked: bool, controls: map<Path, Candidate>, paths: seq<Path>)
    requires forall p :: p in paths ==> p in controls
    ensures !Hides(t, marked, FreshEntries(t, marked, controls, paths), paths)
  {
    forall i | 0 <= i < |paths|
      ensures !HiddenAt(t, marked, FreshEntries(t, marked, controls, paths), paths[i])
    {
      FoundIsFresh(t, marked, controls, paths, paths[i]);
    }
  }

  lemma {:induction false} FoundIsFresh(t: Tree, marked: bool, controls: map<Path, Candidate>, paths: seq<Path>,
                                        p: Path)
    requires forall p :: p in paths ==> p in controls
    ensures var e := EntryAt(FreshEntries(t, marked, controls, paths), p);
      e.Some? ==> e.value.path == p && e.value.stamp == ControlStampOf(t, p, marked)
  {
    if paths != [] { FoundIsFresh(t, marked, controls, paths[1..], p); }
  }

  lemma {:induction false} ProbedAt(t: Tree, marked: bool, controls: map<Path, Candidate>, paths: seq<Path>,
                                    expected: seq<Entry>, p: Path)
    requires forall p :: p in paths ==> p in controls
    ensures var now := EntryAt(FreshEntries(t, marked, controls, paths), p);
      var seen := EntryAt(Probed(t, marked, controls, paths, expected), p);
      && (now.Some? <==> p in paths)
      && seen == if now.Some? && HiddenAt(t, marked, expected, p) then EntryAt(expected, p) else now
  {
    hide HiddenRewrite, ControlStampOf;
    if paths != [] { ProbedAt(t, marked, controls, paths[1..], expected, p); }
  }

  /** A difference that is not a hidden rewrite is still the least one when hidden rewrites are left out. */
  lemma LeastStays(t: Tree, marked: bool, controls: map<Path, Candidate>, paths: seq<Path>, expected: seq<Entry>,
                   p: Path)
    requires forall p :: p in paths ==> p in controls
    requires LeastDifference(expected, FreshEntries(t, marked, controls, paths), p) && !HiddenAt(t, marked, expected, p)
    ensures LeastDifference(expected, Probed(t, marked, controls, paths, expected), p)
    ensures EntryAt(Probed(t, marked, controls, paths, expected), p) ==
            EntryAt(FreshEntries(t, marked, controls, paths), p)
  {
    hide HiddenAt, EntryAt;
    var now, seen := FreshEntries(t, marked, controls, paths), Probed(t, marked, controls, paths, expected);
    ProbedAt(t, marked, controls, paths, expected, p);
    forall q | EntryAt(expected, q) != EntryAt(seen, q)
      ensures p == q || Less(p, q)
    {
      ProbedAt(t, marked, controls, paths, expected, q);
      assert EntryAt(expected, q) != EntryAt(now, q);
    }
  }

  lemma ReasonAt(a: seq<Entry>, b: seq<Entry>, p: Path)
    requires Sorted(a) && Sorted(b) && LeastDifference(a, b, p)
    ensures MergeReason(a, b) ==
            Some(if EntryAt(a, p).Some? then EntryAt(a, p).value.reason else EntryAt(b, p).value.reason)
  {
    MergeFindsLeastDifference(a, b);
    var q :| LeastDifference(a, b, q)
      && MergeReason(a, b) ==
        Some(if EntryAt(a, q).Some? then EntryAt(a, q).value.reason else EntryAt(b, q).value.reason);
    PathOrdered(p, q);
  }

  /**
    The reason given is that of comparing with a rebuilt fingerprint exactly when
    the least difference between the two is no hidden rewrite, or the next one
    that is not hidden happens to carry the same reason.
   */
  lemma ReasonsAgreeExactly(t: Tree, pf: Platform, root: Path, dirs: set<Path>, fp: Fingerprint, p: Path)
    requires Sorted(fp.entries) && Reasoned(fp.entries, ControlMap(root, dirs, pf.global))
    requires LeastDifference(fp.entries, Fingerprinted(t, pf, root, dirs).entries, p)
    ensures var now, r := Fingerprinted(t, pf, root, dirs), Validated(t, pf, root, dirs, false, Some(fp), ProbeAll);
      r == MergeReason(fp.entries, now.entries) <==>
        HiddenAt(t, pf.marked, fp.entries, p) ==> r == Some(EntryAt(fp.entries, p).value.reason)
  {
    var controls := ControlMap(root, dirs, pf.global);
    var now, seen := Fingerprinted(t, pf, root, dirs).entries, ProbedEntries(t, pf, root, dirs, fp);
    FreshEntriesSorted(t, pf.marked, controls);
    assert Sorted(seen);
    hide Validated, Stream, HiddenRewrite, ControlMap, EntryAt, LeastDifference, FreshEntries, Probed, MergeReason,
      Sorted, InOrder;
    StreamIsMerge(t, pf.marked, controls, InOrder(controls.Keys), fp.entries, fp.gitDirs);
    ProbingRefinesComparing(t, pf, root, dirs, fp);
    ReasonAt(fp.entries, now, p);
    if !HiddenAt(t, pf.marked, fp.entries, p) {
      LeastStays(t, pf.marked, controls, InOrder(controls.Keys), fp.entries, p);
      ReasonAt(fp.entries, seen, p);
    }
  }
}
