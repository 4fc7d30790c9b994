/**
  The recursive walk of a scope and the snapshot built from it, and the main
  result of the scope cache: a snapshot whose stamps and ignore fingerprint
  still validate has the entries a fresh walk would have.
 */
module ScopeWalk {
  import opened Wrappers
  import opened FileTree
  import opened PathOrder
  import opened IgnoreFingerprint

  datatype ScopeKey = ScopeKey(root: Path, hidden: bool, noIgnore: bool, maxDepth: Option<nat>)

  /** What ignore decisions may look at: control contents, and which directories hold a `.git`. */
  datatype IgnoreView = IgnoreView(contents: map<Path, string>, repositories: set<Path>)

  type Rules = (IgnoreView, Path, bool) -> bool

  datatype ScopeEntry = ScopeEntry(kind: Kind, stamp: Stamp)

  /**
    `floor` is the clock before the walk began. Entries and directories are
    sorted lists in the program; here they are maps, whose order is that of the keys.
   */
  datatype Snapshot = Snapshot(
    root: Path,
    entries: map<Path, ScopeEntry>,
    directories: map<Path, Stamp>,
    fingerprint: Option<Fingerprint>,
    generation: nat,
    floor: nat)

  // --- The walk -------------------------------------------------------------

  function Ancestors(root: Path, p: Path): set<Path> {
    set i | |root| <= i < |p| :: p[..i]
  }

  function ViewOf(t: Tree, pf: Platform, dirs: set<Path>): IgnoreView {
    IgnoreView(map c | c in ControlPaths(dirs, pf.global) && KindOf(t, c) == RegularFile :: t.nodes[c].content,
               set d | d in dirs && KindOf(t, GitDirPath(d)) != Missing)
  }

  predicate HiddenName(n: Name) { n != [] && n[0] == '.' }

  /** Whether nothing prunes `p`, given that its directory is reached. */
  predicate Admitted(t: Tree, pf: Platform, key: ScopeKey, rules: Rules, p: Path)
    requires |p| > |key.root|
  {
    && (key.maxDepth.None? || |p| - |key.root| <= key.maxDepth.value)
    && (key.hidden || !HiddenName(p[|p| - 1]))
    && (key.noIgnore || !rules(ViewOf(t, pf, Ancestors(key.root, p)), p, KindOf(t, p) == Directory))
  }

  /** Whether the walk reaches `p`: its directory is reached and nothing prunes it. */
  predicate Reached(t: Tree, pf: Platform, key: ScopeKey, rules: Rules, p: Path)
    decreases |p|
  {
    if |p| <= |key.root| then p == key.root && KindOf(t, p) == Directory
    else
      && p in t.nodes
      && KindOf(t, Parent(p)) == Directory
      && Reached(t, pf, key, rules, Parent(p))
      && Admitted(t, pf, key, rules, p)
  }

  function Walk(t: Tree, pf: Platform, key: ScopeKey, rules: Rules): set<Path> {
    set p | p in t.nodes && p != key.root && Reached(t, pf, key, rules, p)
  }

  /** The walk as pairs of a path and a file type. */
  function WalkEntries(t: Tree, pf: Platform, key: ScopeKey, rules: Rules): map<Path, Kind> {
    map p | p in Walk(t, pf, key, rules) :: KindOf(t, p)
  }

  /** The scope's directories: the root and every directory the walk reaches. */
  function ScopeDirs(t: Tree, pf: Platform, key: ScopeKey, rules: Rules): set<Path> {
    {key.root} + set p | p in Walk(t, pf, key, rules) && KindOf(t, p) == Directory
  }

  lemma AncestorsStep(root: Path, p: Path)
    requires |p| > |root|
    ensures Ancestors(root, p) == Ancestors(root, Parent(p)) + {Parent(p)}
  {
    var d := Parent(p);
    forall i | |root| <= i < |p|
      ensures p[..i] in Ancestors(root, d) + {d}
    {
      if i < |d| { assert p[..i] == d[..i]; }
    }
    forall i | |root| <= i < |d|
      ensures d[..i] in Ancestors(root, p)
    {
      assert d[..i] == p[..i];
    }
    assert d == p[..|d|];
  }

  lemma {:induction false} ReachedUnderRoot(t: Tree, pf: Platform, key: ScopeKey, rules: Rules, p: Path)
    requires Reached(t, pf, key, rules, p)
    ensures |key.root| <= |p|
    ensures Ancestors(key.root, p) <= ScopeDirs(t, pf, key, rules)
    decreases |p|
  {
    if |p| > |key.root| {
      ReachedUnderRoot(t, pf, key, rules, Parent(p));
      AncestorsStep(key.root, p);
      ParentInScope(t, pf, key, rules, p);
    }
  }

  lemma ParentInScope(t: Tree, pf: Platform, key: ScopeKey, rules: Rules, p: Path)
    requires |p| > |key.root| && Reached(t, pf, key, rules, Parent(p)) && KindOf(t, Parent(p)) == Directory
    ensures Parent(p) in ScopeDirs(t, pf, key, rules)
  {
  }

  function Assembled(t: Tree, pf: Platform, key: ScopeKey, walk: set<Path>, dirs: set<Path>,
                     generation: nat): Snapshot {
    Snapshot(key.root,
             map p | p in walk && p in t.nodes :: ScopeEntry(KindOf(t, p), StampOf(t.nodes[p], pf.marked)),
             map d | d in dirs && d in t.nodes :: StampOf(t.nodes[d], pf.marked),
             if key.noIgnore then None else Some(Fingerprinted(t, pf, key.root, dirs)),
             generation, t.clock)
  }

  function Built(t: Tree, pf: Platform, key: ScopeKey, rules: Rules, generation: nat): Snapshot {
    Assembled(t, pf, key, Walk(t, pf, key, rules), ScopeDirs(t, pf, key, rules), generation)
  }

  /** The root, the walked directories and the parents of all walked paths. */
  function StampedDirs(t: Tree, root: Path, walked: seq<Path>): set<Path> {
    {root} + (set p | p in walked && KindOf(t, p) == Directory) + (set p | p in walked && p != [] :: Parent(p))
  }

  lemma NothingStamped(t: Tree, root: Path, walked: seq<Path>)
    ensures StampedDirs(t, root, walked[..0]) == {root} && Elements(walked[..0]) == {}
  {
  }

  lemma OneMoreStamped(t: Tree, root: Path, walked: seq<Path>, i: nat)
    requires i < |walked| && walked[i] != []
    ensures var p := walked[i];
      && StampedDirs(t, root, walked[..i + 1]) ==
         StampedDirs(t, root, walked[..i]) + {Parent(p)} + (if KindOf(t, p) == Directory then {p} else {})
      && Elements(walked[..i + 1]) == Elements(walked[..i]) + {p}
  {
    hide KindOf;
    assert walked[..i + 1] == walked[..i] + [walked[i]];
  }

  /** The loop of the build: each entry is recorded; its parent and each directory join the stamped set. */
  method CollectEntries(t: Tree, marked: bool, root: Path, walked: seq<Path>)
    returns (entries: map<Path, ScopeEntry>, directoryPaths: set<Path>)
    requires forall p :: p in walked ==> p in t.nodes && p != []
    ensures entries.Keys == Elements(walked)
    ensures forall p :: p in entries ==>
      p in t.nodes && entries[p] == ScopeEntry(KindOf(t, p), StampOf(t.nodes[p], marked))
    ensures directoryPaths == StampedDirs(t, root, walked)
  {
    hide StampOf, KindOf, StampedDirs, Elements;
    entries := map[];
    directoryPaths := {root};
    NothingStamped(t, root, walked);
    for i := 0 to |walked|
      invariant entries.Keys == Elements(walked[..i])
      invariant forall p :: p in entries ==>
        p in t.nodes && entries[p] == ScopeEntry(KindOf(t, p), StampOf(t.nodes[p], marked))
      invariant directoryPaths == StampedDirs(t, root, walked[..i])
    {
      var p := walked[i];
      assert p in walked;
      OneMoreStamped(t, root, walked, i);
      directoryPaths := directoryPaths + {Parent(p)};
      if KindOf(t, p) == Directory { directoryPaths := directoryPaths + {p}; }
      entries := entries[p := ScopeEntry(KindOf(t, p), StampOf(t.nodes[p], marked))];
    }
    assert walked[..|walked|] == walked;
  }

  /** The parents of the entries add nothing that the root and the reached directories do not already give. */
  lemma ParentsAddNothing(t: Tree, pf: Platform, key: ScopeKey, rules: Rules, p: Path)
    requires p in Walk(t, pf, key, rules)
    ensures p != [] && Parent(p) in ScopeDirs(t, pf, key, rules)
  {
    ParentInScope(t, pf, key, rules, p);
  }

  /** Collected over the walk, the stamped set is the scope's directories. */
  lemma CollectedDirs(t: Tree, pf: Platform, key: ScopeKey, rules: Rules, walked: seq<Path>)
    requires forall p :: p in walked <==> p in Walk(t, pf, key, rules)
    ensures StampedDirs(t, key.root, walked) == ScopeDirs(t, pf, key, rules)
  {
    hide Reached;
    forall p | p in walked
      ensures p != [] && Parent(p) in ScopeDirs(t, pf, key, rules)
    {
      ParentsAddNothing(t, pf, key, rules, p);
    }
  }

  method BuildSnapshot(t: Tree, pf: Platform, key: ScopeKey, rules: Rules, generation: nat) returns (s: Snapshot)
    ensures s == Built(t, pf, key, rules, generation)
  {
    hide Reached, Assembled, StampedDirs, ScopeDirs;
    var walk := Walk(t, pf, key, rules);
    forall p | p in walk
      ensures p != []
    {
      ParentsAddNothing(t, pf, key, rules, p);
    }
    var walked := InOrder(walk);
    CollectedDirs(t, pf, key, rules, walked);
    hide Walk;
    s := Assemble(t, pf, key, walk, walked, generation);
  }

  method Assemble(t: Tree, pf: Platform, key: ScopeKey, walk: set<Path>, walked: seq<Path>, generation: nat)
    returns (s: Snapshot)
    requires forall p :: p in walked <==> p in walk
    requires forall p :: p in walked ==> p in t.nodes && p != []
    ensures s == Assembled(t, pf, key, walk, StampedDirs(t, key.root, walked), generation)
  {
    hide Fingerprinted, StampedDirs, StampOf, KindOf, InOrder;
    var entries, directoryPaths := CollectEntries(t, pf.marked, key.root, walked);
    assert entries == map p | p in walk && p in t.nodes :: ScopeEntry(KindOf(t, p), StampOf(t.nodes[p], pf.marked));
    var paths := InOrder(directoryPaths);
    assert Elements(paths) == directoryPaths;
    var fp := BuildFingerprint(t, pf, key.root, paths, key.noIgnore);
    s := Snapshot(key.root, entries, map d | d in directoryPaths && d in t.nodes :: StampOf(t.nodes[d], pf.marked),
                  fp, generation, t.clock);
  }

  // --- Validation -----------------------------------------------------------

  predicate DirectoriesMatch(t: Tree, marked: bool, directories: map<Path, Stamp>) {
    forall d :: d in directories ==> d in t.nodes && StampOf(t.nodes[d], marked) == directories[d]
  }

  method DirectoryFingerprintsMatch(t: Tree, marked: bool, directories: map<Path, Stamp>) returns (ok: bool)
    ensures ok <==> DirectoriesMatch(t, marked, directories)
  {
    var paths := InOrder(directories.Keys);
    for i := 0 to |paths|
      invariant forall d :: d in paths[..i] ==> d in t.nodes && StampOf(t.nodes[d], marked) == directories[d]
    {
      assert paths[i] in directories.Keys;
      if paths[i] !in t.nodes || StampOf(t.nodes[paths[i]], marked) != directories[paths[i]] { return false; }
    }
    assert paths[..|paths|] == paths;
    forall d | d in directories
      ensures d in t.nodes && StampOf(t.nodes[d], marked) == directories[d]
    {
      assert d in paths;
    }
    return true;
  }

  /** The directories whose recorded stamps are old enough to be trusted. */
  function UmbrellaEligible(s: Snapshot): set<Path> {
    set d | d in s.directories && s.directories[d].modified + SLACK <= s.floor
  }

  /** The two cheap checks of a lookup: directory stamps, then the ignore fingerprint. */
  predicate Hit(t: Tree, pf: Platform, key: ScopeKey, s: Snapshot, skip: AbsentSkip) {
    && DirectoriesMatch(t, pf.marked, s.directories)
    && Validated(t, pf, s.root, s.directories.Keys, key.noIgnore, s.fingerprint, skip) == None
  }

  // --- A walk depends on listings and controls only -------------------------

  /** The two trees agree on everything a walk over the directories `dirs` may look at. */
  ghost predicate SameScope(t: Tree, u: Tree, pf: Platform, noIgnore: bool, dirs: set<Path>) {
    && (forall d :: d in dirs ==> KindOf(u, d) == Directory && SameListing(t, u, d))
    && (noIgnore || SameControls(t, u, ControlPaths(dirs, pf.global)))
  }

  ghost predicate SameControls(t: Tree, u: Tree, controls: set<Path>) {
    forall c :: c in controls ==>
      && (KindOf(t, c) == RegularFile <==> KindOf(u, c) == RegularFile)
      && (KindOf(t, c) == RegularFile ==> t.nodes[c].content == u.nodes[c].content)
  }

  lemma SameViews(t: Tree, u: Tree, pf: Platform, dirs: set<Path>, some: set<Path>)
    requires SameScope(t, u, pf, false, dirs) && some <= dirs
    ensures ViewOf(t, pf, some) == ViewOf(u, pf, some)
  {
    var a, b := ViewOf(t, pf, some), ViewOf(u, pf, some);
    forall c | c in ControlPaths(some, pf.global)
      ensures c in ControlPaths(dirs, pf.global)
    {
      ControlPathsMeaning(some, pf.global, c);
      ControlPathsMeaning(dirs, pf.global, c);
    }
    forall d | d in some
      ensures KindOf(t, GitDirPath(d)) == KindOf(u, GitDirPath(d))
    {
    }
    assert a.contents == b.contents;
    assert a.repositories == b.repositories;
  }

  lemma SameAdmitted(t: Tree, u: Tree, pf: Platform, key: ScopeKey, rules: Rules, p: Path, dirs: set<Path>)
    requires |p| > |key.root| && SameScope(t, u, pf, key.noIgnore, dirs) && Ancestors(key.root, p) <= dirs
    ensures KindOf(t, p) == KindOf(u, p)
    ensures Admitted(t, pf, key, rules, p) <==> Admitted(u, pf, key, rules, p)
  {
    hide ControlPaths, ViewOf;
    var d := Parent(p);
    assert d in Ancestors(key.root, p) by { assert p[..|p| - 1] == d; }
    assert p == d + [p[|p| - 1]];
    if !key.noIgnore { SameViews(t, u, pf, dirs, Ancestors(key.root, p)); }
  }

  /** Agreement on the scope of one tree makes every path reached alike in both. */
  lemma {:induction false} SameReached(t: Tree, u: Tree, pf: Platform, key: ScopeKey, rules: Rules, p: Path)
    requires SameScope(t, u, pf, key.noIgnore, ScopeDirs(t, pf, key, rules)) && KindOf(t, key.root) == Directory
    ensures Reached(t, pf, key, rules, p) <==> Reached(u, pf, key, rules, p)
    ensures Reached(t, pf, key, rules, p) ==> KindOf(t, p) == KindOf(u, p)
    decreases |p|
  {
    if |p| > |key.root| {
      SameReached(t, u, pf, key, rules, Parent(p));
      if Reached(t, pf, key, rules, Parent(p)) && KindOf(t, Parent(p)) == Directory {
        ReachedUnderRoot(t, pf, key, rules, Parent(p));
        AncestorsStep(key.root, p);
        ParentInScope(t, pf, key, rules, p);
        SameAdmitted(t, u, pf, key, rules, p, ScopeDirs(t, pf, key, rules));
      }
    }
  }

  lemma SameWalk(t: Tree, u: Tree, pf: Platform, key: ScopeKey, rules: Rules)
    requires SameScope(t, u, pf, key.noIgnore, ScopeDirs(t, pf, key, rules)) && KindOf(t, key.root) == Directory
    ensures WalkEntries(t, pf, key, rules) == WalkEntries(u, pf, key, rules)
  {
    forall p
      ensures p in Walk(t, pf, key, rules) <==> p in Walk(u, pf, key, rules)
      ensures p in Walk(t, pf, key, rules) ==> KindOf(t, p) == KindOf(u, p)
    {
      SameReached(t, u, pf, key, rules, p);
    }
  }
}
