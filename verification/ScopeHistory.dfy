/**
  Snapshots among concurrent writers: every observation of a build is made in
  some state between the floor and the moment of validation. When the stamps
  are old enough, a validated snapshot has the entries of a fresh walk, and
  skipping probes cannot miss a control.
 */
module ScopeHistory {
  import opened Wrappers
  import opened FileTree
  import opened PathOrder
  import opened IgnoreFingerprint
  import opened ScopeWalk

  // --- What a build recorded ------------------------------------------------

  ghost predicate DirectorySeen(h: seq<Tree>, f: nat, n: nat, marked: bool, d: Path, stamp: Stamp)
    requires f <= n < |h|
  {
    exists i :: f <= i <= n && KindOf(h[i], d) == Directory && StampOf(h[i].nodes[d], marked) == stamp
  }

  ghost predicate ControlSeen(h: seq<Tree>, f: nat, n: nat, marked: bool, e: Entry)
    requires f <= n < |h|
  {
    exists i :: f <= i <= n && e.stamp == ControlStampOf(h[i], e.path, marked)
  }

  ghost predicate GitDirSeen(h: seq<Tree>, f: nat, n: nat, d: Path, present: bool)
    requires f <= n < |h|
  {
    exists i :: f <= i <= n && (present <==> KindOf(h[i], GitDirPath(d)) == Directory)
  }

  /** Each path of `v` is as some step from `f` to `n` had it, not all of them as the same step had them. */
  ghost predicate PutTogether(h: seq<Tree>, f: nat, n: nat, v: Tree)
    requires f <= n < |h|
  {
    forall p :: SeenSometime(h, f, n, v, p)
  }

  ghost predicate SeenSometime(h: seq<Tree>, f: nat, n: nat, v: Tree, p: Path)
    requires f <= n < |h|
  {
    exists i :: f <= i <= n && SeenAs(v, h[i], p)
  }

  lemma SeenStep(h: seq<Tree>, f: nat, n: nat, v: Tree, p: Path) returns (i: nat)
    requires f <= n < |h| && PutTogether(h, f, n, v)
    ensures f <= i <= n && SeenAs(v, h[i], p)
  {
    assert SeenSometime(h, f, n, v, p);
    i :| f <= i <= n && SeenAs(v, h[i], p);
  }

  predicate SeenAs(v: Tree, t: Tree, p: Path) {
    KindOf(v, p) == KindOf(t, p) && (KindOf(t, p) == RegularFile ==> v.nodes[p].content == t.nodes[p].content)
  }

  /** The entries of a fingerprint are its controls, in order. */
  ghost predicate Lists(es: seq<Entry>, controls: map<Path, Candidate>) {
    var paths := InOrder(controls.Keys);
    && |es| == |paths|
    && forall i :: 0 <= i < |es| ==> es[i].path == paths[i] && es[i].reason == controls[paths[i]].reason
  }

  /**
    A snapshot taken while writers were at work: the clock was read at step `f`, the
    walk saw the tree `v`, put together from looks at some step from `f` to `n` for
    each path, and each stamp, control and `.git` was looked at in some such step.
   */
  ghost predicate Recorded(h: seq<Tree>, f: nat, v: Tree, n: nat, pf: Platform, key: ScopeKey, rules: Rules,
                           s: Snapshot)
  {
    && f <= n < |h|
    && PutTogether(h, f, n, v)
    && s.root == key.root && s.floor == h[f].clock
    && (map p | p in s.entries :: s.entries[p].kind) == WalkEntries(v, pf, key, rules)
    && s.directories.Keys == ScopeDirs(v, pf, key, rules)
    && (forall d :: d in s.directories ==> DirectorySeen(h, f, n, pf.marked, d, s.directories[d]))
    && (s.fingerprint.None? <==> key.noIgnore)
    && (s.fingerprint.Some? ==>
          && Lists(s.fingerprint.value.entries, Controls(pf, s))
          && (forall e :: e in s.fingerprint.value.entries ==> ControlSeen(h, f, n, pf.marked, e))
          && (forall d :: d in s.directories ==> GitDirSeen(h, f, n, d, d in s.fingerprint.value.gitDirs)))
  }

  function Controls(pf: Platform, s: Snapshot): map<Path, Candidate> {
    ControlMap(s.root, s.directories.Keys, pf.global)
  }

  // --- Skipped probes -------------------------------------------------------

  /** A trusted directory whose stamp still matches was not touched since the floor. */
  lemma TrustedDirectoryQuiet(h: seq<Tree>, g: nat, f: nat, v: Tree, n: nat, pf: Platform, key: ScopeKey, rules: Rules,
                              s: Snapshot, d: Path, j: nat)
    requires History(h, g) && Recorded(h, f, v, n, pf, key, rules, s)
    requires DirectoriesMatch(h[n], pf.marked, s.directories)
    requires d in UmbrellaEligible(s) && f <= j <= n
    ensures KindOf(h[j], d) == Directory && SameListing(h[j], h[n], d)
  {
    assert DirectorySeen(h, f, n, pf.marked, d, s.directories[d]);
    var i :| f <= i <= n && KindOf(h[i], d) == Directory && StampOf(h[i].nodes[d], pf.marked) == s.directories[d];
    SlackPassesGranule(h[n].nodes[d].modified, h[f].clock, g);
    QuietSince(h, g, d, f, i, n);
    QuietSince(h, g, d, f, j, n);
  }

  lemma ExcludeNeedsGitDir(t: Tree, d: Path)
    requires WellFormed(t) && KindOf(t, GitDirPath(d)) != Directory
    ensures ExcludePath(d) !in t.nodes
  {
    var info := d + [".git", "info"];
    assert Parent(ExcludePath(d)) == info && Parent(info) == GitDirPath(d);
  }

  lemma QuietChild(h: seq<Tree>, g: nat, f: nat, v: Tree, n: nat, pf: Platform, key: ScopeKey, rules: Rules,
                   s: Snapshot, d: Path, name: Name, i: nat, j: nat)
    requires History(h, g) && Recorded(h, f, v, n, pf, key, rules, s)
    requires DirectoriesMatch(h[n], pf.marked, s.directories)
    requires d in UmbrellaEligible(s) && f <= i <= n && f <= j <= n
    ensures KindOf(h[i], d + [name]) == KindOf(h[j], d + [name])
  {
    TrustedDirectoryQuiet(h, g, f, v, n, pf, key, rules, s, d, i);
    TrustedDirectoryQuiet(h, g, f, v, n, pf, key, rules, s, d, j);
  }

  /** A direct child control is one name below its directory; an exclude file is at its fixed place. */
  lemma CandidateShape(dirs: set<Path>, global: Option<Path>, p: Path)
    requires CandidateFor(dirs, global, p).Some?
    ensures var c := CandidateFor(dirs, global, p).value;
      && (c.kind == DirectChild ==> p != [] && c.directory == Some(Parent(p)) && p == Parent(p) + [p[|p| - 1]])
      && (c.kind == GitExclude ==> c.directory.Some? && p == ExcludePath(c.directory.value))
  {
  }

  /** A control that validation may take as absent was no file at any time since the floor. */
  lemma AbsentThroughout(h: seq<Tree>, g: nat, f: nat, v: Tree, n: nat, pf: Platform, key: ScopeKey, rules: Rules,
                         s: Snapshot, e: Entry, j: nat)
    requires History(h, g) && Recorded(h, f, v, n, pf, key, rules, s) && s.fingerprint.Some?
    requires DirectoriesMatch(h[n], pf.marked, s.directories)
    requires e in s.fingerprint.value.entries && e.stamp.None? && e.path in Controls(pf, s)
    requires StillAbsent(Controls(pf, s)[e.path], s.fingerprint.value.gitDirs, VerifiedDirs(UmbrellaEligible(s)))
    requires f <= j <= n
    ensures KindOf(h[j], e.path) != RegularFile
  {
    var c := Controls(pf, s)[e.path];
    var d := c.directory.value;
    CandidateShape(ControlDirs(s.root, s.directories.Keys, pf.global), pf.global, e.path);
    if c.kind == DirectChild {
      assert ControlSeen(h, f, n, pf.marked, e);
      var i :| f <= i <= n && e.stamp == ControlStampOf(h[i], e.path, pf.marked);
      QuietChild(h, g, f, v, n, pf, key, rules, s, d, e.path[|d|], i, j);
    } else {
      assert GitDirSeen(h, f, n, d, d in s.fingerprint.value.gitDirs);
      var i :| f <= i <= n && (d in s.fingerprint.value.gitDirs <==> KindOf(h[i], GitDirPath(d)) == Directory);
      QuietChild(h, g, f, v, n, pf, key, rules, s, d, ".git", i, j);
      HistoryWellFormed(h, g, j);
      ExcludeNeedsGitDir(h[j], d);
    }
  }

  /**
    Once all directory stamps match, validating with the trusted directories'
    probes skipped gives the same answer as probing every control, whatever
    writers did during the build and since.
   */
  lemma SkippingProbesIsSound(h: seq<Tree>, g: nat, f: nat, v: Tree, n: nat, pf: Platform, key: ScopeKey, rules: Rules,
                              s: Snapshot)
    requires History(h, g) && Recorded(h, f, v, n, pf, key, rules, s)
    requires DirectoriesMatch(h[n], pf.marked, s.directories)
    ensures Validated(h[n], pf, s.root, s.directories.Keys, key.noIgnore, s.fingerprint,
                      VerifiedDirs(UmbrellaEligible(s)))
         == Validated(h[n], pf, s.root, s.directories.Keys, key.noIgnore, s.fingerprint, ProbeAll)
  {
    if s.fingerprint.Some? && !key.noIgnore {
      var fp, controls, skip := s.fingerprint.value, Controls(pf, s), VerifiedDirs(UmbrellaEligible(s));
      forall e | e in fp.entries && e.stamp.None? && e.path in controls
        && StillAbsent(controls[e.path], fp.gitDirs, skip)
        ensures KindOf(h[n], e.path) != RegularFile
      {
        AbsentThroughout(h, g, f, v, n, pf, key, rules, s, e, n);
      }
      SkippedProbesFindNothing(h[n], pf.marked, controls, InOrder(controls.Keys), fp.entries, fp.gitDirs, skip);
    }
  }

  /** The walk saw a trusted directory and its listing as they are now, although it looked at them at many moments. */
  lemma SeenListing(h: seq<Tree>, g: nat, f: nat, v: Tree, n: nat, pf: Platform, key: ScopeKey, rules: Rules,
                    s: Snapshot, d: Path)
    requires History(h, g) && Recorded(h, f, v, n, pf, key, rules, s)
    requires DirectoriesMatch(h[n], pf.marked, s.directories) && d in UmbrellaEligible(s)
    ensures KindOf(v, d) == Directory == KindOf(h[n], d) && SameListing(v, h[n], d)
  {
    RecordedRange(h, f, v, n, pf, key, rules, s);
    hide Recorded, History, DirectoriesMatch, PutTogether, UmbrellaEligible;
    var i := SeenStep(h, f, n, v, d);
    TrustedDirectoryQuiet(h, g, f, v, n, pf, key, rules, s, d, i);
    TrustedDirectoryQuiet(h, g, f, v, n, pf, key, rules, s, d, n);
    forall m: Name
      ensures KindOf(v, d + [m]) == KindOf(h[n], d + [m])
    {
      var k := SeenStep(h, f, n, v, d + [m]);
      QuietChild(h, g, f, v, n, pf, key, rules, s, d, m, k, n);
    }
  }

  // --- A hit has the entries of a fresh walk --------------------------------

  /**
    A recorded control is trusted when its stamp is old, or when it is bound to
    be absent still, or when the walk saw the very content recorded and that is what
    will be compared.
   */
  predicate Trusted(v: Tree, pf: Platform, s: Snapshot, e: Entry)
    requires s.fingerprint.Some? && e.path in Controls(pf, s)
  {
    match e.stamp
    case Some(stamp) =>
      || stamp.metadata.modified + SLACK <= s.floor
      || (stamp.metadata.marker.None? && KindOf(v, e.path) == RegularFile
        && stamp.hash == Sha256(v.nodes[e.path].content))
    case None =>
      || StillAbsent(Controls(pf, s)[e.path], s.fingerprint.value.gitDirs, VerifiedDirs(UmbrellaEligible(s)))
      || KindOf(v, e.path) != RegularFile
  }

  /** A control whose recorded stamp is old and still matches had the same content ever since the floor. */
  lemma OldControlSame(h: seq<Tree>, g: nat, f: nat, v: Tree, n: nat, marked: bool, e: Entry)
    requires History(h, g) && f <= n < |h| && PutTogether(h, f, n, v)
    requires e.stamp.Some? && e.stamp.value.metadata.modified + SLACK <= h[f].clock
    requires e.stamp == ControlStampOf(h[n], e.path, marked) || HiddenRewrite(h[n], e, marked)
    ensures SameControls(v, h[n], {e.path})
  {
    assert e.path in h[n].nodes && h[n].nodes[e.path].modified == e.stamp.value.metadata.modified;
    SlackPassesGranule(e.stamp.value.metadata.modified, h[f].clock, g);
    var i := SeenStep(h, f, n, v, e.path);
    QuietSince(h, g, e.path, f, i, n);
  }

  lemma TrustedControlSame(h: seq<Tree>, g: nat, f: nat, v: Tree, n: nat, pf: Platform, key: ScopeKey, rules: Rules,
                           s: Snapshot, e: Entry)
    requires History(h, g) && Recorded(h, f, v, n, pf, key, rules, s) && s.fingerprint.Some?
    requires DirectoriesMatch(h[n], pf.marked, s.directories)
    requires e in s.fingerprint.value.entries && e.path in Controls(pf, s) && Trusted(v, pf, s, e)
    requires e.stamp == ControlStampOf(h[n], e.path, pf.marked) || HiddenRewrite(h[n], e, pf.marked)
    ensures SameControls(v, h[n], {e.path})
  {
    RecordedRange(h, f, v, n, pf, key, rules, s);
    hide Recorded, History, Reached, HiddenRewrite, DirectoriesMatch, SameControls, ControlMap, ControlStampOf,
      PutTogether;
    if e.stamp.Some? && e.stamp.value.metadata.modified + SLACK <= s.floor {
      OldControlSame(h, g, f, v, n, pf.marked, e);
    } else if e.stamp.None? &&
      StillAbsent(Controls(pf, s)[e.path], s.fingerprint.value.gitDirs, VerifiedDirs(UmbrellaEligible(s))) {
      var i := SeenStep(h, f, n, v, e.path);
      AbsentThroughout(h, g, f, v, n, pf, key, rules, s, e, i);
      NoControlSame(v, h[n], pf.marked, e);
    } else {
      UnmarkedControlSame(v, h[n], pf.marked, e);
    }
  }

  lemma NoControlSame(t: Tree, u: Tree, marked: bool, e: Entry)
    requires KindOf(t, e.path) != RegularFile && e.stamp.None?
    requires e.stamp == ControlStampOf(u, e.path, marked) || HiddenRewrite(u, e, marked)
    ensures SameControls(t, u, {e.path})
  {
  }

  lemma UnmarkedControlSame(v: Tree, u: Tree, marked: bool, e: Entry)
    requires KindOf(v, e.path) == RegularFile <==> e.stamp.Some?
    requires e.stamp.Some? ==>
      e.stamp.value.metadata.marker.None? && e.stamp.value.hash == Sha256(v.nodes[e.path].content)
    requires e.stamp == ControlStampOf(u, e.path, marked) || HiddenRewrite(u, e, marked)
    ensures SameControls(v, u, {e.path})
  {
  }

  lemma RecordedRange(h: seq<Tree>, f: nat, v: Tree, n: nat, pf: Platform, key: ScopeKey, rules: Rules, s: Snapshot)
    requires Recorded(h, f, v, n, pf, key, rules, s)
    ensures f <= n < |h| && PutTogether(h, f, n, v) && s.floor == h[f].clock && s.root == key.root
  {
  }

  /** When validation finds nothing, every listed entry is what would be recorded now, up to unseen rewrites. */
  lemma ValidatedEntries(t: Tree, pf: Platform, s: Snapshot, e: Entry)
    requires s.fingerprint.Some? && Lists(s.fingerprint.value.entries, Controls(pf, s))
    requires Validated(t, pf, s.root, s.directories.Keys, false, s.fingerprint, ProbeAll) == None
    requires e in s.fingerprint.value.entries
    ensures e.stamp == ControlStampOf(t, e.path, pf.marked) || HiddenRewrite(t, e, pf.marked)
  {
    var fp, controls := s.fingerprint.value, Controls(pf, s);
    var paths := InOrder(controls.Keys);
    StreamFindsNothing(t, pf.marked, controls, paths, fp.entries, fp.gitDirs);
    var i :| 0 <= i < |fp.entries| && fp.entries[i] == e;
    assert fp.entries[i] == FreshEntries(t, pf.marked, controls, paths)[i]
      || HiddenRewrite(t, fp.entries[i], pf.marked);
  }

  lemma TrustedControlsSame(h: seq<Tree>, g: nat, f: nat, v: Tree, n: nat, pf: Platform, key: ScopeKey, rules: Rules,
                            s: Snapshot)
    requires History(h, g) && Recorded(h, f, v, n, pf, key, rules, s) && !key.noIgnore
    requires Hit(h[n], pf, key, s, ProbeAll)
    requires forall e :: e in s.fingerprint.value.entries && e.path in Controls(pf, s) ==> Trusted(v, pf, s, e)
    ensures SameControls(v, h[n], ControlPaths(s.directories.Keys, pf.global))
  {
    var dirs := s.directories.Keys;
    assert key.root in dirs;
    forall c | c in ControlPaths(dirs, pf.global)
      ensures SameControls(v, h[n], {c})
    {
      ControlPathsMeaning(dirs, pf.global, c);
      assert c in Controls(pf, s) && c in InOrder(Controls(pf, s).Keys);
      var i :| 0 <= i < |InOrder(Controls(pf, s).Keys)| && InOrder(Controls(pf, s).Keys)[i] == c;
      var e := s.fingerprint.value.entries[i];
      ValidatedEntries(h[n], pf, s, e);
      TrustedControlSame(h, g, f, v, n, pf, key, rules, s, e);
    }
    forall c | c in ControlPaths(dirs, pf.global)
      ensures KindOf(v, c) == RegularFile <==> KindOf(h[n], c) == RegularFile
      ensures KindOf(v, c) == RegularFile ==> v.nodes[c].content == h[n].nodes[c].content
    {
      assert SameControls(v, h[n], {c}) && c in {c};
    }
  }

  /**
    The cache's promise: if every directory stamp is old enough and every
    control is trusted, a lookup that validates, with or without skipped probes,
    returns exactly the entries a fresh walk of the current tree yields.
   */
  lemma HitEqualsFreshWalk(h: seq<Tree>, g: nat, f: nat, v: Tree, n: nat, pf: Platform, key: ScopeKey, rules: Rules,
                           s: Snapshot, skip: AbsentSkip)
    requires History(h, g) && Recorded(h, f, v, n, pf, key, rules, s)
    requires skip == ProbeAll || skip == VerifiedDirs(UmbrellaEligible(s))
    requires Hit(h[n], pf, key, s, skip)
    requires UmbrellaEligible(s) == s.directories.Keys
    requires !key.noIgnore ==>
      forall e :: e in s.fingerprint.value.entries && e.path in Controls(pf, s) ==> Trusted(v, pf, s, e)
    ensures WalkEntries(h[n], pf, key, rules) == map p | p in s.entries :: s.entries[p].kind
  {
    SkippingProbesIsSound(h, g, f, v, n, pf, key, rules, s);
    forall d | d in s.directories
      ensures KindOf(v, d) == Directory == KindOf(h[n], d) && SameListing(v, h[n], d)
    {
      SeenListing(h, g, f, v, n, pf, key, rules, s, d);
    }
    assert key.root in s.directories;
    if !key.noIgnore { TrustedControlsSame(h, g, f, v, n, pf, key, rules, s); }
    SameWalk(v, h[n], pf, key, rules);
  }

  // --- A build that no writer interrupted -----------------------------------

  /** Something the holder of a snapshot can check: all stamps are old, or compared by content. */
  predicate RaceFree(s: Snapshot) {
    && (forall d :: d in s.directories ==> s.directories[d].modified + SLACK <= s.floor)
    && (s.fingerprint.Some? ==> forall e :: e in s.fingerprint.value.entries && e.stamp.Some? ==>
          e.stamp.value.metadata.modified + SLACK <= s.floor || e.stamp.value.metadata.marker.None?)
  }

  lemma BuiltShape(t: Tree, pf: Platform, key: ScopeKey, rules: Rules, generation: nat)
    requires KindOf(t, key.root) == Directory
    ensures var s := Built(t, pf, key, rules, generation);
      && s.directories.Keys == ScopeDirs(t, pf, key, rules)
      && (forall d :: d in s.directories ==>
        KindOf(t, d) == Directory && StampOf(t.nodes[d], pf.marked) == s.directories[d])
      && (map p | p in s.entries :: s.entries[p].kind) == WalkEntries(t, pf, key, rules)
  {
    hide Reached, Fingerprinted;
    var s := Built(t, pf, key, rules, generation);
    var dirs := ScopeDirs(t, pf, key, rules);
    assert forall d :: d in dirs ==> KindOf(t, d) == Directory;
    assert s.entries.Keys == Walk(t, pf, key, rules);
  }

  lemma SeenAtOnce(h: seq<Tree>, f: nat, n: nat)
    requires f <= n < |h|
    ensures PutTogether(h, f, n, h[f])
  {
    forall p
      ensures SeenSometime(h, f, n, h[f], p)
    {
      assert SeenAs(h[f], h[f], p);
    }
  }

  lemma BuiltFields(t: Tree, pf: Platform, key: ScopeKey, rules: Rules, generation: nat)
    ensures var s := Built(t, pf, key, rules, generation);
      && s.root == key.root && s.floor == t.clock
      && s.fingerprint == if key.noIgnore then None
        else Some(Fingerprinted(t, pf, key.root, ScopeDirs(t, pf, key, rules)))
  {
    hide Fingerprinted, Walk, ScopeDirs;
  }

  lemma BuiltIsRecorded(h: seq<Tree>, f: nat, n: nat, pf: Platform, key: ScopeKey, rules: Rules, generation: nat)
    requires f <= n < |h| && KindOf(h[f], key.root) == Directory
    ensures Recorded(h, f, h[f], n, pf, key, rules, Built(h[f], pf, key, rules, generation))
  {
    hide Built, Walk, Reached, Fingerprinted, ControlMap, ScopeDirs, WalkEntries, Lists, PutTogether, StampOf, KindOf,
      DirectorySeen, ControlSeen, GitDirSeen;
    BuiltShape(h[f], pf, key, rules, generation);
    BuiltFields(h[f], pf, key, rules, generation);
    SeenAtOnce(h, f, n);
    var s := Built(h[f], pf, key, rules, generation);
    if !key.noIgnore { FingerprintIsRecorded(h, f, n, pf, key.root, s.directories.Keys); }
    forall d | d in s.directories
      ensures DirectorySeen(h, f, n, pf.marked, d, s.directories[d])
    {
      SeenWhenBuilt(h, f, n, pf.marked, d, s.directories[d]);
    }
  }

  lemma SeenWhenBuilt(h: seq<Tree>, f: nat, n: nat, marked: bool, d: Path, stamp: Stamp)
    requires f <= n < |h| && KindOf(h[f], d) == Directory && StampOf(h[f].nodes[d], marked) == stamp
    ensures DirectorySeen(h, f, n, marked, d, stamp)
  {
  }

  lemma FingerprintIsRecorded(h: seq<Tree>, f: nat, n: nat, pf: Platform, root: Path, dirs: set<Path>)
    requires f <= n < |h|
    ensures Lists(Fingerprinted(h[f], pf, root, dirs).entries, ControlMap(root, dirs, pf.global))
    ensures forall e :: e in Fingerprinted(h[f], pf, root, dirs).entries ==> ControlSeen(h, f, n, pf.marked, e)
    ensures forall d :: d in dirs ==> GitDirSeen(h, f, n, d, d in Fingerprinted(h[f], pf, root, dirs).gitDirs)
  {
    forall e | e in Fingerprinted(h[f], pf, root, dirs).entries
      ensures ControlSeen(h, f, n, pf.marked, e)
    {
      assert e.stamp == ControlStampOf(h[f], e.path, pf.marked);
    }
  }
}
