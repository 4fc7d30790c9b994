/**
  What a walk lists and what changes are called, stated by names, kinds and depths
  alone.
 */
module ScopeLaws {
  import opened Wrappers
  import opened FileTree
  import opened PathOrder
  import opened IgnoreFingerprint
  import opened ScopeWalk

  // --- What is listed -------------------------------------------------------

  predicate DotName(n: Name) { n != "" && n[0] == '.' }

  predicate Under(root: Path, p: Path) { |root| < |p| && p[..|root|] == root }

  /** Every step down from the root is into a directory. */
  predicate Descends(t: Tree, root: Path, p: Path) {
    forall k :: |root| <= k < |p| ==> KindOf(t, p[..k]) == Directory
  }

  predicate NoDotNames(root: Path, p: Path) { forall k :: |root| <= k < |p| ==> !DotName(p[k]) }

  /** The rules let every step down through. */
  ghost predicate Allowed(t: Tree, pf: Platform, key: ScopeKey, rules: Rules, p: Path) {
    forall k :: |key.root| < k <= |p| ==> StepAllowed(t, pf, key, rules, p[..k])
  }

  predicate StepAllowed(t: Tree, pf: Platform, key: ScopeKey, rules: Rules, q: Path) {
    !rules(ViewOf(t, pf, Ancestors(key.root, q)), q, KindOf(t, q) == Directory)
  }

  ghost predicate Listable(t: Tree, pf: Platform, key: ScopeKey, rules: Rules, p: Path) {
    && Under(key.root, p) && p in t.nodes && Descends(t, key.root, p)
    && (key.maxDepth.Some? ==> |p| - |key.root| <= key.maxDepth.value)
    && (!key.hidden ==> NoDotNames(key.root, p))
    && (!key.noIgnore ==> Allowed(t, pf, key, rules, p))
  }

  lemma {:induction false} ReachedExactly(t: Tree, pf: Platform, key: ScopeKey, rules: Rules, p: Path)
    requires WellFormed(t) && |p| > |key.root|
    ensures Reached(t, pf, key, rules, p) <==> Listable(t, pf, key, rules, p)
    decreases |p|
  {
    hide ViewOf, Ancestors;
    var d := Parent(p);
    assert p[..|p|] == p && p == d + [p[|p| - 1]];
    ListableStep(t, pf, key, rules, p);
    hide Listable;
    if |d| > |key.root| {
      ReachedExactly(t, pf, key, rules, d);
    }
  }

  lemma ListableStep(t: Tree, pf: Platform, key: ScopeKey, rules: Rules, p: Path)
    requires |p| > |key.root|
    ensures var d := Parent(p);
      Listable(t, pf, key, rules, p) <==>
        && p in t.nodes && KindOf(t, d) == Directory && Admitted(t, pf, key, rules, p)
        && (if |d| > |key.root| then Listable(t, pf, key, rules, d) else d == key.root)
  {
    var d, n := Parent(p), |p| - 1;
    NamesStep(key.root, p);
    DescendsStep(t, key.root, p);
    UnderStep(key.root, p);
    AllowedStep(t, pf, key, rules, p);
    hide ViewOf, Ancestors, Allowed, Descends, NoDotNames, Under;
  }

  lemma NamesStep(root: Path, p: Path)
    requires |p| > |root|
    ensures NoDotNames(root, p) <==> !HiddenName(p[|p| - 1]) && NoDotNames(root, Parent(p))
    ensures |p| == |root| + 1 ==> NoDotNames(root, Parent(p))
  {
    assert forall k :: 0 <= k < |p| - 1 ==> Parent(p)[k] == p[k];
  }

  lemma DescendsStep(t: Tree, root: Path, p: Path)
    requires |p| > |root|
    ensures Descends(t, root, p) <==> KindOf(t, Parent(p)) == Directory && Descends(t, root, Parent(p))
  {
    var d, n := Parent(p), |p| - 1;
    assert p[..n] == d;
    assert forall k :: 0 <= k <= n ==> d[..k] == p[..k];
  }

  lemma UnderStep(root: Path, p: Path)
    requires |p| > |root|
    ensures Under(root, p) <==> if |p| - 1 > |root| then Under(root, Parent(p)) else Parent(p) == root
  {
    assert Parent(p)[..|root|] == p[..|root|];
  }

  lemma AllowedStep(t: Tree, pf: Platform, key: ScopeKey, rules: Rules, p: Path)
    requires |p| > |key.root|
    ensures Allowed(t, pf, key, rules, p) <==>
            StepAllowed(t, pf, key, rules, p) && (|p| - 1 > |key.root| ==> Allowed(t, pf, key, rules, Parent(p)))
  {
    hide StepAllowed;
    var d, n := Parent(p), |p| - 1;
    assert p[..n + 1] == p;
    forall k | |key.root| < k <= n
      ensures d[..k] == p[..k]
    {
    }
  }

  /** A walk lists exactly the nodes under the root that nothing on the way down hides. */
  lemma WalkExactly(t: Tree, pf: Platform, key: ScopeKey, rules: Rules, p: Path)
    requires WellFormed(t)
    ensures p in Walk(t, pf, key, rules) <==> Listable(t, pf, key, rules, p) && KindOf(t, key.root) == Directory
  {
    if |p| > |key.root| {
      ReachedExactly(t, pf, key, rules, p);
      if Listable(t, pf, key, rules, p) { assert p[..|key.root|] == key.root; }
    }
  }

  predicate IsControlOf(c: Path, d: Path) {
    c == d + [".ignore"] || c == d + [".gitignore"] || c == d + [".git", "info", "exclude"]
  }

  /**
    What the rules may see: the four kinds of control files of the directories above, with
    their text, and the repositories.
   */
  lemma ViewExactly(t: Tree, pf: Platform, dirs: set<Path>, c: Path, d: Path)
    ensures var v := ViewOf(t, pf, dirs);
      && (c in v.contents <==>
            && KindOf(t, c) == RegularFile
            && (pf.global == Some(c)
                || exists e :: e in dirs && IsControlOf(c, e)))
      && (c in v.contents ==> v.contents[c] == t.nodes[c].content)
      && (d in v.repositories <==> d in dirs && KindOf(t, d + [".git"]) != Missing)
  {
  }

  // --- What a change is called ----------------------------------------------

  /** The reason given for a change of this control file when the scope's directories are `dirs`. */
  lemma ReasonOfControl(dirs: set<Path>, global: Option<Path>, d: Path)
    requires d in dirs
    ensures CandidateFor(dirs, global, d + [".ignore"]).Some?
    ensures CandidateFor(dirs, global, d + [".ignore"]).value.reason == IgnoreFileChanged
    ensures CandidateFor(dirs, global, d + [".gitignore"]).Some?
    ensures CandidateFor(dirs, global, d + [".gitignore"]).value.reason == GitignoreChanged
    ensures CandidateFor(dirs, global, d + [".git", "info", "exclude"]).Some?
    ensures CandidateFor(dirs, global, d + [".git", "info", "exclude"]).value.reason == GitExcludeChanged
  {
    assert Parent(d + [".ignore"]) == Parent(d + [".gitignore"]) == d == (d + [".git", "info", "exclude"])[..|d|];
    assert (d + [".git", "info", "exclude"])[|d| + 2] == "exclude";
    ControlsDistinct(d, d);
    var e := d + [".git", "info", "exclude"];
    ControlsDistinct(Parent(e), d);
    ControlsDistinct(d, Parent(e));
    ControlsDistinct(Parent(e), Parent(e));
  }

  /** Nothing but `c` changed, and the change shows. */
  ghost predicate OnlyChange(t: Tree, u: Tree, marked: bool, c: Path) {
    && ControlStampOf(u, c, marked) != ControlStampOf(t, c, marked)
    && !HiddenRewrite(u, Entry(c, IgnoreRulesChanged, ControlStampOf(t, c, marked)), marked)
    && forall q :: q != c ==> ControlStampOf(u, q, marked) == ControlStampOf(t, q, marked)
  }

  lemma {:induction false} FreshAt(t: Tree, marked: bool, controls: map<Path, Candidate>, paths: seq<Path>, q: Path)
    requires forall p :: p in paths ==> p in controls
    ensures EntryAt(FreshEntries(t, marked, controls, paths), q) ==
            if q in paths then Some(Entry(q, controls[q].reason, ControlStampOf(t, q, marked))) else None
  {
    hide ControlStampOf;
    if paths != [] { FreshAt(t, marked, controls, paths[1..], q); }
  }

  /** Where the fingerprint of `t` and what is probed in `u` differ. */
  lemma DiffersAt(t: Tree, u: Tree, pf: Platform, root: Path, dirs: set<Path>, c: Path, q: Path)
    requires OnlyChange(t, u, pf.marked, c)
    ensures var fp := Fingerprinted(t, pf, root, dirs);
      EntryAt(fp.entries, q) != EntryAt(ProbedEntries(u, pf, root, dirs, fp), q) <==>
      q == c && c in ControlMap(root, dirs, pf.global)
  {
    var fp, controls := Fingerprinted(t, pf, root, dirs), ControlMap(root, dirs, pf.global);
    hide ControlMap, InOrder, ControlStampOf, HiddenRewrite, EntryAt, FreshEntries, Probed;
    var paths := InOrder(controls.Keys);
    FreshAt(t, pf.marked, controls, paths, q);
    FreshAt(u, pf.marked, controls, paths, q);
    ProbedAt(u, pf.marked, controls, paths, fp.entries, q);
    HiddenWhateverReason(t, u, pf.marked, q);
  }

  lemma HiddenWhateverReason(t: Tree, u: Tree, marked: bool, q: Path)
    ensures forall r, s :: HiddenRewrite(u, Entry(q, r, ControlStampOf(t, q, marked)), marked) <==>
                           HiddenRewrite(u, Entry(q, s, ControlStampOf(t, q, marked)), marked)
    ensures forall r :: ControlStampOf(u, q, marked) == ControlStampOf(t, q, marked) ==>
                        !HiddenRewrite(u, Entry(q, r, ControlStampOf(t, q, marked)), marked)
  {
  }

  /** Validation calls the change of a control file by the reason of its name. */
  lemma ChangeIsNamed(t: Tree, u: Tree, pf: Platform, root: Path, dirs: set<Path>, c: Path)
    requires OnlyChange(t, u, pf.marked, c) && c in ControlMap(root, dirs, pf.global)
    ensures Validated(u, pf, root, dirs, false, Some(Fingerprinted(t, pf, root, dirs)), ProbeAll) ==
            Some(ControlMap(root, dirs, pf.global)[c].reason)
  {
    var fp, controls := Fingerprinted(t, pf, root, dirs), ControlMap(root, dirs, pf.global);
    var seen, paths := ProbedEntries(u, pf, root, dirs, fp), InOrder(controls.Keys);
    FreshEntriesSorted(t, pf.marked, controls);
    FreshReasoned(t, pf.marked, controls, paths);
    hide Validated, Probed, ControlMap, InOrder, EntryAt, HiddenRewrite, ControlStampOf, Sorted, Reasoned;
    ProbingRefinesComparing(u, pf, root, dirs, fp);
    DiffersAt(t, u, pf, root, dirs, c, c);
    var p :| LeastDifference(fp.entries, seen, p)
      && Validated(u, pf, root, dirs, false, Some(fp), ProbeAll)
           == Some(if EntryAt(fp.entries, p).Some? then EntryAt(fp.entries, p).value.reason
                   else EntryAt(seen, p).value.reason);
    DiffersAt(t, u, pf, root, dirs, c, p);
    FreshAt(t, pf.marked, controls, paths, c);
  }

  lemma FreshReasoned(t: Tree, marked: bool, controls: map<Path, Candidate>, paths: seq<Path>)
    requires forall p :: p in paths ==> p in controls
    ensures Reasoned(FreshEntries(t, marked, controls, paths), controls)
  {
    hide ControlStampOf;
  }

  /** A `.gitignore`, an `.ignore` or an exclude file of the scope that changed alone is named as the reason. */
  lemma ControlChangeIsNamed(t: Tree, u: Tree, pf: Platform, root: Path, dirs: set<Path>, d: Path, c: Path)
    requires d in dirs && OnlyChange(t, u, pf.marked, c)
    ensures var r := Validated(u, pf, root, dirs, false, Some(Fingerprinted(t, pf, root, dirs)), ProbeAll);
      && (c == d + [".gitignore"] ==> r == Some(GitignoreChanged))
      && (c == d + [".ignore"] ==> r == Some(IgnoreFileChanged))
      && (c == d + [".git", "info", "exclude"] ==> r == Some(GitExcludeChanged))
  {
    ReasonOfControl(dirs, pf.global, d);
    if c == d + [".gitignore"] || c == d + [".ignore"] || c == d + [".git", "info", "exclude"] {
      ControlPathsMeaning(dirs, pf.global, c);
      hide Validated, OnlyChange, CandidateFor, ControlPaths, Fingerprinted;
      ChangeIsNamed(t, u, pf, root, dirs, c);
    }
  }

  /** The global excludes file, unless it is one of a directory's own controls. */
  lemma GlobalChangeIsNamed(t: Tree, u: Tree, pf: Platform, root: Path, dirs: set<Path>, c: Path)
    requires pf.global == Some(c) && OnlyChange(t, u, pf.marked, c) && CandidateFor(dirs, None, c) == None
    ensures Validated(u, pf, root, dirs, false, Some(Fingerprinted(t, pf, root, dirs)), ProbeAll) ==
            Some(GlobalIgnoreChanged)
  {
    ControlPathsMeaning(dirs, pf.global, c);
    assert CandidateFor(dirs, pf.global, c) == Some(Candidate(GlobalIgnoreChanged, Global, None));
    hide Validated, OnlyChange, CandidateFor, ControlPaths, Fingerprinted;
    ChangeIsNamed(t, u, pf, root, dirs, c);
  }

  // --- What is trusted ------------------------------------------------------

  /** A directory's stamp is trusted when it is two seconds older than the build. */
  lemma TrustedExactly(s: Snapshot, d: Path)
    ensures d in UmbrellaEligible(s) <==> d in s.directories && s.directories[d].modified + 2_000_000_000 <= s.floor
  {
  }

  /** Which controls recorded as absent are not looked for again. */
  lemma AbsentExactly(c: Candidate, gitDirs: set<Path>, dirs: set<Path>)
    ensures StillAbsent(c, gitDirs, VerifiedDirs(dirs)) <==>
            && c.directory.Some? && c.directory.value in dirs
            && (c.kind == DirectChild || (c.kind == GitExclude && c.directory.value !in gitDirs))
    ensures StillAbsent(c, gitDirs, AllVerifiedDirs) <==>
            && c.directory.Some?
            && (c.kind == DirectChild || (c.kind == GitExclude && c.directory.value !in gitDirs))
    ensures !StillAbsent(c, gitDirs, ProbeAll)
  {
  }

  // --- What writers may do --------------------------------------------------

  function ChangedAt(n: Node, now: nat): Node {
    match n
    case Dir(modified, _) => Dir(modified, now)
    case File(content, modified, _) => File(content, modified, now)
  }

  lemma NextBy(t: Tree, a: Action, g: nat)
    requires 0 < g && Enabled(t, a)
    ensures Next(t, Apply(t, a, g), g)
  {
  }

  /**
    A new node and the removal of one stamp the directory; a write stamps the file; a change of
    mode shows in `changed` alone.
   */
  lemma WritersMay(t: Tree, g: nat, p: Path, content: string, ticks: nat)
    requires 0 < g
    ensures var now := t.clock - t.clock % g;
      && Next(t, t.(clock := t.clock + ticks), g)
      && (p != [] && p !in t.nodes && KindOf(t, p[..|p| - 1]) == Directory ==>
            && Next(t, t.(nodes := t.nodes[p := Dir(now, now)][p[..|p| - 1] := Dir(now, now)]), g)
            && Next(t, t.(nodes := t.nodes[p := File(content, now, now)][p[..|p| - 1] := Dir(now, now)]), g))
      && (p != [] && p in t.nodes && KindOf(t, p[..|p| - 1]) == Directory
          && (forall q :: q in t.nodes && q != [] ==> q[..|q| - 1] != p) ==>
            Next(t, t.(nodes := (t.nodes - {p})[p[..|p| - 1] := Dir(now, now)]), g))
      && (p in t.nodes && t.nodes[p].File? ==>
            Next(t, t.(nodes := t.nodes[p := File(content, now, now)]), g))
      && (p in t.nodes ==> Next(t, t.(nodes := t.nodes[p := ChangedAt(t.nodes[p], now)]), g))
  {
    hide Next;
    NextBy(t, Wait(ticks), g);
    if p != [] && p !in t.nodes && KindOf(t, p[..|p| - 1]) == Directory {
      NextBy(t, MakeDir(p), g);
      NextBy(t, MakeFile(p, content), g);
    }
    if p != [] && p in t.nodes && KindOf(t, p[..|p| - 1]) == Directory
       && forall q :: q in t.nodes && q != [] ==> q[..|q| - 1] != p
    {
      NextBy(t, Remove(p), g);
    }
    if p in t.nodes && t.nodes[p].File? { NextBy(t, Write(p, content), g); }
    if p in t.nodes { NextBy(t, ChangeMode(p), g); }
  }
}
