/**
  When a validated snapshot can be stale. A later change of the granule in which a
  stamp was taken does not show in it, so the rule is: every directory whose listing
  the walk reads, and every control on which a decision of the walk depends where
  change markers are trusted, must have been stamped in an earlier granule. The rule
  is exact.
 */
module ScopeStaleness {
  import opened Wrappers
  import opened FileTree
  import opened PathOrder
  import opened IgnoreFingerprint
  import opened ScopeWalk
  import opened ScopeHistory

  /** Timestamps are those of past changes, the last change being no earlier than the last write. */
  ghost predicate Timely(t: Tree, g: nat)
    requires 0 < g
  {
    forall p :: p in t.nodes ==> t.nodes[p].modified <= t.nodes[p].changed <= Coarse(t.clock, g)
  }

  lemma ApplyTimely(t: Tree, a: Action, g: nat)
    requires 0 < g && Timely(t, g) && Enabled(t, a)
    ensures Timely(Apply(t, a, g), g)
  {
    CoarseMonotone(t.clock, Apply(t, a, g).clock, g);
  }

  lemma {:induction false} HistoryTimely(h: seq<Tree>, g: nat, i: nat)
    requires History(h, g) && Timely(h[0], g) && i < |h|
    ensures Timely(h[i], g)
  {
    hide Timely, Enabled, Apply;
    if i > 0 {
      HistoryTimely(h, g, i - 1);
      assert Next(h[i - 1], h[i], g);
      var a: Action :| Enabled(h[i - 1], a) && h[i] == Apply(h[i - 1], a, g);
      ApplyTimely(h[i - 1], a, g);
    }
  }

  // --- The rule -------------------------------------------------------------

  /** The depth bound lets the walk read the listing of `d`. */
  predicate Listed(key: ScopeKey, d: Path) { key.maxDepth.None? || |d| - |key.root| < key.maxDepth.value }

  ghost predicate ListingsSettled(s: Snapshot, key: ScopeKey, now: nat, g: nat)
    requires 0 < g
  {
    forall d :: d in s.directories && Listed(key, d) ==> s.directories[d].modified < Coarse(now, g)
  }

  /** The walk asks the rules about `p`. */
  predicate Asked(t: Tree, key: ScopeKey, s: Snapshot, p: Path) {
    && |p| > |key.root| && p in t.nodes
    && Parent(p) in s.directories && Listed(key, Parent(p))
    && (key.hidden || !HiddenName(p[|p| - 1]))
  }

  /** What the rules may look at when they are asked about `p`. */
  function Governing(pf: Platform, key: ScopeKey, p: Path): set<Path> {
    ControlPaths(Ancestors(key.root, p), pf.global)
  }

  /** The control can be rewritten to another text without moving its stamp. */
  predicate Rewritable(t: Tree, c: Path, g: nat)
    requires 0 < g
  {
    KindOf(t, c) == RegularFile && t.nodes[c].content != "" && !(t.nodes[c].modified < Coarse(t.clock, g))
  }

  ghost predicate ControlsSettled(t: Tree, pf: Platform, key: ScopeKey, s: Snapshot, g: nat)
    requires 0 < g
  {
    forall p, c :: Asked(t, key, s, p) && c in Governing(pf, key, p) ==> !Rewritable(t, c, g)
  }

  /** Whatever happens next, a lookup that validates has the entries of a fresh walk. */
  ghost predicate NeverStale(h: seq<Tree>, g: nat, pf: Platform, key: ScopeKey, rules: Rules, s: Snapshot)
    requires h != []
  {
    forall later ::
      History(h + later, g) && Hit((h + later)[|h + later| - 1], pf, key, s, VerifiedDirs(UmbrellaEligible(s))) ==>
      WalkEntries((h + later)[|h + later| - 1], pf, key, rules) == WalkEntries(h[|h| - 1], pf, key, rules)
  }

  // --- The rule suffices ----------------------------------------------------

  /** The two trees agree on what the walk of the first reads. */
  ghost predicate SameReads(t: Tree, u: Tree, pf: Platform, key: ScopeKey, s: Snapshot) {
    && (forall d :: d in s.directories && Listed(key, d) ==> KindOf(u, d) == Directory && SameListing(t, u, d))
    && (!key.noIgnore ==> forall p :: Asked(t, key, s, p) ==> SameControls(t, u, Governing(pf, key, p)))
  }

  lemma AncestorsListed(key: ScopeKey, p: Path, a: Path)
    requires |p| > |key.root| && Listed(key, Parent(p)) && a in Ancestors(key.root, p)
    ensures Listed(key, a)
  {
  }

  lemma ReachedDirectory(t: Tree, pf: Platform, key: ScopeKey, rules: Rules, d: Path)
    requires KindOf(t, key.root) == Directory
    ensures d in ScopeDirs(t, pf, key, rules) <==> KindOf(t, d) == Directory && Reached(t, pf, key, rules, d)
  {
  }

  /** A path asked about is decided alike in two trees that agree on what is read. */
  lemma AskedAlike(t: Tree, u: Tree, pf: Platform, key: ScopeKey, rules: Rules, s: Snapshot, p: Path)
    requires KindOf(t, key.root) == Directory && s.directories.Keys == ScopeDirs(t, pf, key, rules)
    requires SameReads(t, u, pf, key, s) && Asked(t, key, s, p)
    ensures KindOf(t, p) == KindOf(u, p) && (Admitted(t, pf, key, rules, p) <==> Admitted(u, pf, key, rules, p))
  {
    hide Admitted, ControlPaths, ViewOf;
    ReachedDirectory(t, pf, key, rules, Parent(p));
    hide Reached, ScopeDirs;
    ReachedUnderRoot(t, pf, key, rules, Parent(p));
    AncestorsStep(key.root, p);
    forall a | a in Ancestors(key.root, p)
      ensures KindOf(u, a) == Directory && SameListing(t, u, a)
    {
      AncestorsListed(key, p, a);
    }
    SameAdmitted(t, u, pf, key, rules, p, Ancestors(key.root, p));
  }

  lemma ReachedStep(t: Tree, pf: Platform, key: ScopeKey, rules: Rules, p: Path)
    requires |p| > |key.root|
    ensures Reached(t, pf, key, rules, p) <==>
            p in t.nodes && InReach(t, pf, key, rules, Parent(p)) && Admitted(t, pf, key, rules, p)
    ensures Admitted(t, pf, key, rules, p) ==> Listed(key, Parent(p)) && (key.hidden || !HiddenName(p[|p| - 1]))
  {
  }

  /** The walk lists `d`, the depth bound aside. */
  predicate InReach(t: Tree, pf: Platform, key: ScopeKey, rules: Rules, d: Path) {
    KindOf(t, d) == Directory && Reached(t, pf, key, rules, d)
  }

  lemma {:induction false} ReachedAlike(t: Tree, u: Tree, pf: Platform, key: ScopeKey, rules: Rules, s: Snapshot,
                                        p: Path)
    requires KindOf(t, key.root) == Directory && s.directories.Keys == ScopeDirs(t, pf, key, rules)
    requires SameReads(t, u, pf, key, s) && |p| > |key.root|
    ensures Reached(t, pf, key, rules, p) <==> Reached(u, pf, key, rules, p)
    ensures Reached(t, pf, key, rules, p) ==> KindOf(t, p) == KindOf(u, p)
    decreases |p|, 1
  {
    hide Reached, Admitted, ScopeDirs, HiddenName, ControlPaths, Governing;
    ReachedStep(t, pf, key, rules, p);
    ReachedStep(u, pf, key, rules, p);
    var d, name := Parent(p), p[|p| - 1];
    if Listed(key, d) {
      ParentAlike(t, u, pf, key, rules, s, p);
      if InReach(t, pf, key, rules, d) {
        ReachedDirectory(t, pf, key, rules, d);
        assert KindOf(t, d + [name]) == KindOf(u, d + [name]) && p == d + [name];
        if p in t.nodes && (key.hidden || !HiddenName(name)) { AskedAlike(t, u, pf, key, rules, s, p); }
      }
    }
  }

  lemma {:induction false} ParentAlike(t: Tree, u: Tree, pf: Platform, key: ScopeKey, rules: Rules, s: Snapshot,
                                       p: Path)
    requires KindOf(t, key.root) == Directory && s.directories.Keys == ScopeDirs(t, pf, key, rules)
    requires SameReads(t, u, pf, key, s) && |p| > |key.root| && Listed(key, Parent(p))
    ensures InReach(t, pf, key, rules, Parent(p)) <==> InReach(u, pf, key, rules, Parent(p))
    decreases |p|, 0
  {
    var d := Parent(p);
    if |d| > |key.root| {
      hide Reached, SameReads, ScopeDirs;
      ReachedAlike(t, u, pf, key, rules, s, d);
    } else if d == key.root {
      assert d in s.directories;
    }
  }

  lemma SameReadsSameWalk(t: Tree, u: Tree, pf: Platform, key: ScopeKey, rules: Rules, s: Snapshot)
    requires KindOf(t, key.root) == Directory && s.directories.Keys == ScopeDirs(t, pf, key, rules)
    requires SameReads(t, u, pf, key, s)
    ensures WalkEntries(t, pf, key, rules) == WalkEntries(u, pf, key, rules)
  {
    hide SameReads, ScopeDirs;
    forall p
      ensures p in Walk(t, pf, key, rules) <==> p in Walk(u, pf, key, rules)
      ensures p in Walk(t, pf, key, rules) ==> KindOf(t, p) == KindOf(u, p)
    {
      WalkBelowRoot(t, pf, key, rules, p);
      WalkBelowRoot(u, pf, key, rules, p);
      hide Walk, Reached;
      if |p| > |key.root| { ReachedAlike(t, u, pf, key, rules, s, p); }
    }
  }

  lemma WalkBelowRoot(t: Tree, pf: Platform, key: ScopeKey, rules: Rules, p: Path)
    ensures p in Walk(t, pf, key, rules) <==> |p| > |key.root| && Reached(t, pf, key, rules, p)
  {
  }

  /** A control that validates and could not be rewritten unseen has the content it had. */
  lemma SettledControlSame(run: seq<Tree>, g: nat, b: nat, n: nat, marked: bool, e: Entry)
    requires History(run, g) && b <= n < |run| && e.stamp == ControlStampOf(run[b], e.path, marked)
    requires e.stamp == ControlStampOf(run[n], e.path, marked) || HiddenRewrite(run[n], e, marked)
    requires marked ==> !Rewritable(run[b], e.path, g)
    ensures SameControls(run[b], run[n], {e.path})
  {
    if e.stamp != ControlStampOf(run[n], e.path, marked) && run[b].nodes[e.path].modified < Coarse(run[b].clock, g) {
      QuietSince(run, g, e.path, b, b, n);
    }
  }

  /** The fingerprint of a build lists each control with the stamp it has. */
  lemma ListedControl(t: Tree, pf: Platform, key: ScopeKey, rules: Rules, generation: nat, c: Path) returns (e: Entry)
    requires KindOf(t, key.root) == Directory && !key.noIgnore
    requires c in ControlPaths(ScopeDirs(t, pf, key, rules), pf.global)
    ensures var s := Built(t, pf, key, rules, generation);
      && s.fingerprint.Some? && Lists(s.fingerprint.value.entries, Controls(pf, s))
      && e in s.fingerprint.value.entries && e.path == c && e.stamp == ControlStampOf(t, c, pf.marked)
  {
    hide Walk, Reached, CandidateFor, ControlStampOf, ControlPaths;
    var s := Built(t, pf, key, rules, generation);
    BuiltShape(t, pf, key, rules, generation);
    var dirs := s.directories.Keys;
    var controls := Controls(pf, s);
    assert key.root in dirs;
    ControlPathsMeaning(dirs, pf.global, c);
    assert c in controls && c in InOrder(controls.Keys);
    var i :| 0 <= i < |InOrder(controls.Keys)| && InOrder(controls.Keys)[i] == c;
    e := s.fingerprint.value.entries[i];
  }

  lemma GoverningIsListed(t: Tree, pf: Platform, key: ScopeKey, rules: Rules, s: Snapshot, p: Path, c: Path)
    requires KindOf(t, key.root) == Directory && s.directories.Keys == ScopeDirs(t, pf, key, rules)
    requires Asked(t, key, s, p) && c in Governing(pf, key, p)
    ensures c in ControlPaths(s.directories.Keys, pf.global)
  {
    ReachedDirectory(t, pf, key, rules, Parent(p));
    hide Reached, ScopeDirs, ControlPaths, Ancestors;
    ReachedUnderRoot(t, pf, key, rules, Parent(p));
    AncestorsStep(key.root, p);
    MoreDirectories(Ancestors(key.root, p), s.directories.Keys, pf.global, c);
  }

  lemma MoreDirectories(some: set<Path>, dirs: set<Path>, global: Option<Path>, c: Path)
    requires some <= dirs && c in ControlPaths(some, global)
    ensures c in ControlPaths(dirs, global)
  {
    ControlPathsMeaning(some, global, c);
    ControlPathsMeaning(dirs, global, c);
    hide ControlPaths;
  }

  lemma SettledReads(run: seq<Tree>, g: nat, b: nat, n: nat, pf: Platform, key: ScopeKey, rules: Rules, generation: nat)
    requires History(run, g) && b <= n < |run| && KindOf(run[b], key.root) == Directory
    requires var s := Built(run[b], pf, key, rules, generation);
      && ListingsSettled(s, key, run[b].clock, g)
      && (pf.marked && !key.noIgnore ==> ControlsSettled(run[b], pf, key, s, g))
      && Hit(run[n], pf, key, s, ProbeAll)
    ensures SameReads(run[b], run[n], pf, key, Built(run[b], pf, key, rules, generation))
  {
    var t, s := run[b], Built(run[b], pf, key, rules, generation);
    BuiltShape(t, pf, key, rules, generation);
    hide Built, Governing, ControlPaths, SameControls, Reached, Walk, ScopeDirs, WalkEntries, Validated,
      ControlStampOf, HiddenRewrite, Rewritable;
    forall d | d in s.directories && Listed(key, d)
      ensures KindOf(run[n], d) == Directory && SameListing(t, run[n], d)
    {
      assert run[n].nodes[d].modified == s.directories[d].modified;
      QuietSince(run, g, d, b, b, n);
    }
    if !key.noIgnore {
      forall p | Asked(t, key, s, p)
        ensures SameControls(t, run[n], Governing(pf, key, p))
      {
        forall c | c in Governing(pf, key, p)
          ensures SameControls(t, run[n], {c})
        {
          GoverningIsListed(t, pf, key, rules, s, p, c);
          var e := ListedControl(t, pf, key, rules, generation, c);
          ValidatedEntries(run[n], pf, s, e);
          SettledControlSame(run, g, b, n, pf.marked, e);
        }
        ControlsOneByOne(t, run[n], Governing(pf, key, p));
      }
    }
  }

  lemma ControlsOneByOne(t: Tree, u: Tree, controls: set<Path>)
    requires forall c :: c in controls ==> SameControls(t, u, {c})
    ensures SameControls(t, u, controls)
  {
    forall c | c in controls
      ensures KindOf(t, c) == RegularFile <==> KindOf(u, c) == RegularFile
      ensures KindOf(t, c) == RegularFile ==> t.nodes[c].content == u.nodes[c].content
    {
      assert SameControls(t, u, {c}) && c in {c};
    }
  }

  /** With trusted directories' probes skipped a lookup validates exactly when it does with all of them. */
  lemma HitEitherWay(run: seq<Tree>, g: nat, b: nat, n: nat, pf: Platform, key: ScopeKey, rules: Rules, generation: nat)
    requires History(run, g) && b <= n < |run| && KindOf(run[b], key.root) == Directory
    ensures var s := Built(run[b], pf, key, rules, generation);
      Hit(run[n], pf, key, s, VerifiedDirs(UmbrellaEligible(s))) <==> Hit(run[n], pf, key, s, ProbeAll)
  {
    var s := Built(run[b], pf, key, rules, generation);
    if DirectoriesMatch(run[n], pf.marked, s.directories) {
      BuiltIsRecorded(run, b, n, pf, key, rules, generation);
      hide Recorded, Built, Validated, UmbrellaEligible;
      SkippingProbesIsSound(run, g, b, run[b], n, pf, key, rules, s);
    }
  }

  /** The rule for a snapshot built of `t`. */
  ghost predicate Settled(t: Tree, g: nat, pf: Platform, key: ScopeKey, s: Snapshot)
    requires 0 < g
  {
    ListingsSettled(s, key, t.clock, g) && (pf.marked && !key.noIgnore ==> ControlsSettled(t, pf, key, s, g))
  }

  /** A settled snapshot built at step `f` that validates at step `n` has the entries of both walks. */
  lemma SettledHit(run: seq<Tree>, g: nat, f: nat, n: nat, pf: Platform, key: ScopeKey, rules: Rules, generation: nat)
    requires History(run, g) && f <= n < |run| && KindOf(run[f], key.root) == Directory
    requires var s := Built(run[f], pf, key, rules, generation);
      Settled(run[f], g, pf, key, s) && Hit(run[n], pf, key, s, VerifiedDirs(UmbrellaEligible(s)))
    ensures WalkEntries(run[n], pf, key, rules) == WalkEntries(run[f], pf, key, rules)
  {
    hide Built, ListingsSettled, ControlsSettled, Hit, WalkEntries, History, SameReads, UmbrellaEligible;
    HitEitherWay(run, g, f, n, pf, key, rules, generation);
    SettledReads(run, g, f, n, pf, key, rules, generation);
    BuiltShape(run[f], pf, key, rules, generation);
    SameReadsSameWalk(run[f], run[n], pf, key, rules, Built(run[f], pf, key, rules, generation));
  }

  lemma SettledNeverStale(h: seq<Tree>, g: nat, pf: Platform, key: ScopeKey, rules: Rules, generation: nat)
    requires h != [] && History(h, g) && KindOf(h[|h| - 1], key.root) == Directory
    requires Settled(h[|h| - 1], g, pf, key, Built(h[|h| - 1], pf, key, rules, generation))
    ensures NeverStale(h, g, pf, key, rules, Built(h[|h| - 1], pf, key, rules, generation))
  {
    hide Built, Settled, Hit, WalkEntries, History, UmbrellaEligible;
    var s := Built(h[|h| - 1], pf, key, rules, generation);
    forall later |
      History(h + later, g) && Hit((h + later)[|h + later| - 1], pf, key, s, VerifiedDirs(UmbrellaEligible(s)))
      ensures WalkEntries((h + later)[|h + later| - 1], pf, key, rules) == WalkEntries(h[|h| - 1], pf, key, rules)
    {
      SettledHit(h + later, g, |h| - 1, |h + later| - 1, pf, key, rules, generation);
    }
  }

  /** Old stamps, and contents that will be compared, are settled. */
  lemma RaceFreeIsSettled(t: Tree, g: nat, pf: Platform, key: ScopeKey, rules: Rules, generation: nat)
    requires 0 < g <= SLACK && KindOf(t, key.root) == Directory && RaceFree(Built(t, pf, key, rules, generation))
    ensures Settled(t, g, pf, key, Built(t, pf, key, rules, generation))
  {
    var s := Built(t, pf, key, rules, generation);
    BuiltShape(t, pf, key, rules, generation);
    assert s.floor == t.clock;
    hide Built, Governing, Reached, Walk, ScopeDirs, WalkEntries, Coarse, ControlMap, InOrder, Lists, ControlPaths;
    forall d | d in s.directories && Listed(key, d)
      ensures s.directories[d].modified < Coarse(t.clock, g)
    {
      SlackPassesGranule(s.directories[d].modified, t.clock, g);
    }
    if pf.marked && !key.noIgnore {
      forall p, c | Asked(t, key, s, p) && c in Governing(pf, key, p)
        ensures !Rewritable(t, c, g)
      {
        GoverningIsListed(t, pf, key, rules, s, p, c);
        var e := ListedControl(t, pf, key, rules, generation, c);
        if KindOf(t, c) == RegularFile { SlackPassesGranule(t.nodes[c].modified, t.clock, g); }
      }
    }
  }

  /**
    A race-free snapshot built at step `f` that validates at step `n`, with or without skipped
    probes, has the entries of both walks.
   */
  lemma RaceFreeHit(h: seq<Tree>, g: nat, f: nat, n: nat, pf: Platform, key: ScopeKey, rules: Rules, generation: nat,
                    skip: AbsentSkip)
    requires History(h, g) && f <= n < |h| && KindOf(h[f], key.root) == Directory
    requires var s := Built(h[f], pf, key, rules, generation);
      RaceFree(s) && Hit(h[n], pf, key, s, skip) && (skip == ProbeAll || skip == VerifiedDirs(UmbrellaEligible(s)))
    ensures WalkEntries(h[n], pf, key, rules) == WalkEntries(h[f], pf, key, rules)
  {
    hide Built, Settled, Hit, WalkEntries, RaceFree, UmbrellaEligible;
    RaceFreeIsSettled(h[f], g, pf, key, rules, generation);
    HitEitherWay(h, g, f, n, pf, key, rules, generation);
    SettledHit(h, g, f, n, pf, key, rules, generation);
  }

  // --- The rule is necessary: what a later change of the same granule does ----

  /** Rules that decide alike in `t` build the same snapshot of it. */
  ghost predicate SameDecisions(t: Tree, pf: Platform, key: ScopeKey, rules: Rules, other: Rules) {
    forall q :: |q| > |key.root| && q in t.nodes ==>
      (Admitted(t, pf, key, rules, q) <==> Admitted(t, pf, key, other, q))
  }

  lemma {:induction false} SameDecisionsReach(t: Tree, pf: Platform, key: ScopeKey, rules: Rules, other: Rules, p: Path)
    requires SameDecisions(t, pf, key, rules, other)
    ensures Reached(t, pf, key, rules, p) <==> Reached(t, pf, key, other, p)
    decreases |p|
  {
    if |p| > |key.root| { SameDecisionsReach(t, pf, key, rules, other, Parent(p)); }
  }

  lemma SameDecisionsBuild(t: Tree, pf: Platform, key: ScopeKey, rules: Rules, other: Rules, generation: nat)
    requires SameDecisions(t, pf, key, rules, other)
    ensures Built(t, pf, key, rules, generation) == Built(t, pf, key, other, generation)
  {
    forall p
      ensures p in Walk(t, pf, key, rules) <==> p in Walk(t, pf, key, other)
    {
      SameDecisionsReach(t, pf, key, rules, other, p);
    }
    assert Walk(t, pf, key, rules) == Walk(t, pf, key, other);
  }

  /** What validation sees of a control in `u` is what it recorded in `t`. */
  ghost predicate LooksSame(t: Tree, u: Tree, marked: bool, c: Path) {
    || ControlStampOf(u, c, marked) == ControlStampOf(t, c, marked)
    || HiddenRewrite(u, Entry(c, IgnoreRulesChanged, ControlStampOf(t, c, marked)), marked)
  }

  lemma ControlsOf(root: Path, dirs: set<Path>, global: Option<Path>, c: Path)
    requires root in dirs && c in ControlMap(root, dirs, global)
    ensures c in ControlPaths(dirs, global)
  {
    hide CandidateFor, ControlPaths;
  }

  lemma LooksSameFingerprint(t: Tree, u: Tree, pf: Platform, root: Path, dirs: set<Path>)
    requires root in dirs && forall c :: c in ControlPaths(dirs, pf.global) ==> LooksSame(t, u, pf.marked, c)
    ensures Validated(u, pf, root, dirs, false, Some(Fingerprinted(t, pf, root, dirs)), ProbeAll) == None
  {
    hide Stream, ControlPaths, ControlMap, InOrder, FreshEntries, LooksSame, HiddenRewrite, ControlStampOf;
    var controls := ControlMap(root, dirs, pf.global);
    var paths := InOrder(controls.Keys);
    var es, now := FreshEntries(t, pf.marked, controls, paths), FreshEntries(u, pf.marked, controls, paths);
    forall i | 0 <= i < |paths|
      ensures es[i] == now[i] || HiddenRewrite(u, es[i], pf.marked)
    {
      assert paths[i] in paths && paths[i] in controls;
      ControlsOf(root, dirs, pf.global, paths[i]);
      LooksSameEntry(t, u, pf.marked, es[i], now[i]);
    }
    StreamFindsNothing(u, pf.marked, controls, paths, es, Fingerprinted(t, pf, root, dirs).gitDirs);
  }

  lemma LooksSameEntry(t: Tree, u: Tree, marked: bool, e: Entry, now: Entry)
    requires LooksSame(t, u, marked, e.path) && now == e.(stamp := ControlStampOf(u, e.path, marked))
    requires e.stamp == ControlStampOf(t, e.path, marked)
    ensures e == now || HiddenRewrite(u, e, marked)
  {
  }

  /** A snapshot validates where directories kept their nodes and controls look the same. */
  lemma LooksSameValidates(t: Tree, u: Tree, pf: Platform, key: ScopeKey, rules: Rules, generation: nat)
    requires KindOf(t, key.root) == Directory
    requires forall d :: KindOf(t, d) == Directory ==> d in u.nodes && u.nodes[d] == t.nodes[d]
    requires forall c :: c in ControlPaths(ScopeDirs(t, pf, key, rules), pf.global) ==> LooksSame(t, u, pf.marked, c)
    ensures Hit(u, pf, key, Built(t, pf, key, rules, generation), ProbeAll)
  {
    hide Reached, Walk, WalkEntries, Fingerprinted, Stream, ControlMap, ControlPaths, LooksSame;
    var s := Built(t, pf, key, rules, generation);
    BuiltShape(t, pf, key, rules, generation);
    assert key.root in s.directories;
    hide ScopeDirs, Validated;
    if key.noIgnore { NothingToValidate(u, pf, key.root, s.directories.Keys); }
    else { LooksSameFingerprint(t, u, pf, key.root, s.directories.Keys); }
  }

  lemma NothingToValidate(u: Tree, pf: Platform, root: Path, dirs: set<Path>)
    ensures Validated(u, pf, root, dirs, true, None, ProbeAll) == None
  {
  }

  // --- A name nobody uses ---------------------------------------------------

  function Repeat(n: nat): (s: Name)
    ensures |s| == n && forall i :: 0 <= i < n ==> s[i] == 'a'
  {
    if n == 0 then "" else "a" + Repeat(n - 1)
  }

  lemma {:induction false} UnusedName(used: set<Path>, d: Path) returns (n: nat)
    ensures forall m :: m >= n ==> d + [Repeat(m)] !in used
  {
    if used == {} {
      n := 0;
    } else {
      var p :| p in used;
      var k := UnusedName(used - {p}, d);
      var len := if p == [] then 0 else |p[|p| - 1]|;
      n := if k > len then k else len + 1;
      forall m | m >= n
        ensures d + [Repeat(m)] !in used
      {
        var q := d + [Repeat(m)];
        assert |q[|q| - 1]| == m;
        assert q !in used - {p};
      }
    }
  }

  /** Making a file under a directory stamped in the current granule leaves every node as it was. */
  lemma HiddenCreation(t: Tree, g: nat, p: Path) returns (u: Tree)
    requires 0 < g && Timely(t, g)
    requires p != [] && p !in t.nodes && KindOf(t, Parent(p)) == Directory
    requires !(t.nodes[Parent(p)].modified < Coarse(t.clock, g))
    ensures Next(t, u, g) && MoreBy(t, u, p)
  {
    var a := MakeFile(p, "");
    assert Enabled(t, a);
    u := Apply(t, a, g);
  }

  /** The second tree is the first and one more file. */
  predicate MoreBy(t: Tree, u: Tree, p: Path) {
    && p !in t.nodes && KindOf(u, p) == RegularFile && u.nodes.Keys == t.nodes.Keys + {p}
    && forall q :: q in t.nodes ==> u.nodes[q] == t.nodes[q]
  }

  /** A name of a file that controls nothing. */
  predicate PlainPath(pf: Platform, p: Path) {
    p != [] && p[|p| - 1] != "" && p[|p| - 1][0] == 'a' && Some(p) != pf.global
  }

  lemma PlainControlsNothing(pf: Platform, p: Path, dirs: set<Path>, d: Path)
    requires PlainPath(pf, p)
    ensures p !in ControlPaths(dirs, pf.global) && p != GitDirPath(d)
  {
    ControlPathsMeaning(dirs, pf.global, p);
  }

  lemma SameViewBeside(t: Tree, u: Tree, pf: Platform, p: Path, dirs: set<Path>)
    requires MoreBy(t, u, p) && PlainPath(pf, p)
    ensures ViewOf(t, pf, dirs) == ViewOf(u, pf, dirs)
  {
    hide ControlPaths, PlainPath;
    var a, b := ViewOf(t, pf, dirs), ViewOf(u, pf, dirs);
    PlainControlsNothing(pf, p, dirs, []);
    forall d | d in dirs
      ensures KindOf(t, GitDirPath(d)) == KindOf(u, GitDirPath(d))
    {
      PlainControlsNothing(pf, p, dirs, d);
    }
    assert a.contents == b.contents;
    assert a.repositories == b.repositories;
  }

  /** The rules, save that `p` is taken in. */
  function Taking(rules: Rules, p: Path): Rules {
    (v: IgnoreView, q: Path, isDir: bool) => q != p && rules(v, q, isDir)
  }

  lemma {:induction false} StillReached(t: Tree, u: Tree, pf: Platform, key: ScopeKey, rules: Rules, p: Path, q: Path)
    requires MoreBy(t, u, p) && PlainPath(pf, p) && Reached(t, pf, key, rules, q)
    ensures Reached(u, pf, key, Taking(rules, p), q)
    decreases |q|
  {
    hide ViewOf, PlainPath;
    if |q| > |key.root| {
      StillReached(t, u, pf, key, rules, p, Parent(q));
      SameViewBeside(t, u, pf, p, Ancestors(key.root, q));
    }
  }

  lemma TakingBuildsSame(t: Tree, pf: Platform, key: ScopeKey, rules: Rules, generation: nat, p: Path)
    requires p !in t.nodes
    ensures Built(t, pf, key, Taking(rules, p), generation) == Built(t, pf, key, rules, generation)
  {
    hide ViewOf, Built;
    assert SameDecisions(t, pf, key, rules, Taking(rules, p));
    SameDecisionsBuild(t, pf, key, rules, Taking(rules, p), generation);
  }

  lemma CreationLooksSame(t: Tree, u: Tree, pf: Platform, p: Path, dirs: set<Path>, c: Path)
    requires MoreBy(t, u, p) && PlainPath(pf, p) && c in ControlPaths(dirs, pf.global)
    ensures LooksSame(t, u, pf.marked, c)
  {
    PlainControlsNothing(pf, p, dirs, []);
  }

  lemma CreatedIsReached(t: Tree, u: Tree, pf: Platform, key: ScopeKey, rules: Rules, p: Path)
    requires MoreBy(t, u, p) && PlainPath(pf, p) && Listed(key, Parent(p))
    requires KindOf(t, Parent(p)) == Directory && Reached(t, pf, key, rules, Parent(p))
    ensures p in Walk(u, pf, key, Taking(rules, p))
  {
    StillReached(t, u, pf, key, rules, p, Parent(p));
    ReachedUnderRoot(t, pf, key, rules, Parent(p));
  }

  /** A plain path under `d` that is not there. */
  lemma UnusedPath(t: Tree, pf: Platform, d: Path) returns (p: Path)
    ensures PlainPath(pf, p) && Parent(p) == d && p !in t.nodes
  {
    var used := t.nodes.Keys + if pf.global.Some? then {pf.global.value} else {};
    var k := UnusedName(used, d);
    var n := Repeat(if k > 0 then k else 1);
    p := d + [n];
    assert Parent(p) == d && p[|p| - 1] == n && p !in used;
  }

  /** A directory of the scope stamped in the current granule can take in a file that no stamp shows. */
  lemma StaleListing(t: Tree, g: nat, pf: Platform, key: ScopeKey, rules: Rules, generation: nat, d: Path)
    returns (u: Tree, other: Rules)
    requires 0 < g && Timely(t, g) && KindOf(t, key.root) == Directory
    requires d in ScopeDirs(t, pf, key, rules) && Listed(key, d) && !(t.nodes[d].modified < Coarse(t.clock, g))
    ensures Built(t, pf, key, other, generation) == Built(t, pf, key, rules, generation)
    ensures Next(t, u, g) && Hit(u, pf, key, Built(t, pf, key, rules, generation), ProbeAll)
    ensures WalkEntries(u, pf, key, other) != WalkEntries(t, pf, key, other)
  {
    var p := UnusedPath(t, pf, d);
    ReachedDirectory(t, pf, key, rules, d);
    u := HiddenCreation(t, g, p);
    other := Taking(rules, p);
    hide Built, Next, Taking, PlainPath, Hit, Listed, ControlPaths, LooksSame, ScopeDirs, Reached;
    TakingBuildsSame(t, pf, key, rules, generation, p);
    forall c | c in ControlPaths(ScopeDirs(t, pf, key, rules), pf.global)
      ensures LooksSame(t, u, pf.marked, c)
    {
      CreationLooksSame(t, u, pf, p, ScopeDirs(t, pf, key, rules), c);
    }
    LooksSameValidates(t, u, pf, key, rules, generation);
    CreatedIsReached(t, u, pf, key, rules, p);
    assert p in WalkEntries(u, pf, key, other) && p !in WalkEntries(t, pf, key, other);
  }

  lemma WriteStep(t: Tree, u: Tree, p: Path, content: string, g: nat, now: nat)
    requires 0 < g && KindOf(t, p) == RegularFile && now == Coarse(t.clock, g)
    requires u.clock == t.clock && u.nodes == t.nodes[p := File(content, now, now)]
    ensures Next(t, u, g)
  {
    var a := Write(p, content);
    assert Enabled(t, a);
    assert Apply(t, a, g) == u;
  }

  function Flipped(text: string): (r: string)
    requires text != ""
    ensures |r| == |text| && r != text
  {
    var r := [if text[0] == 'a' then 'b' else 'a'] + text[1..];
    assert r[0] != text[0];
    r
  }

  /** The second tree is the first with one control rewritten and nothing else changed, stamps included. */
  ghost predicate RewrittenUnseen(t: Tree, u: Tree, c: Path) {
    && KindOf(t, c) == RegularFile && u.nodes.Keys == t.nodes.Keys
    && (forall q :: q in t.nodes && q != c ==> u.nodes[q] == t.nodes[q])
    && KindOf(u, c) == RegularFile && u.nodes[c].content != t.nodes[c].content
    && StampOf(u.nodes[c], true) == StampOf(t.nodes[c], true)
  }

  lemma HiddenWrite(t: Tree, g: nat, c: Path) returns (u: Tree)
    requires 0 < g && Timely(t, g) && Rewritable(t, c, g)
    ensures Next(t, u, g) && RewrittenUnseen(t, u, c)
  {
    var now, text := Coarse(t.clock, g), Flipped(t.nodes[c].content);
    u := t.(nodes := t.nodes[c := File(text, now, now)]);
    hide Coarse;
    WriteStep(t, u, c, text, g, now);
  }

  lemma RewriteLooksSame(t: Tree, u: Tree, c: Path, q: Path)
    requires RewrittenUnseen(t, u, c)
    ensures LooksSame(t, u, true, q)
  {
  }

  lemma RewriteShows(t: Tree, u: Tree, pf: Platform, dirs: set<Path>, c: Path)
    requires RewrittenUnseen(t, u, c) && c in ControlPaths(dirs, pf.global)
    ensures ViewOf(t, pf, dirs) != ViewOf(u, pf, dirs)
  {
    assert ViewOf(t, pf, dirs).contents[c] == t.nodes[c].content
      && ViewOf(u, pf, dirs).contents[c] == u.nodes[c].content;
  }

  /** The rules as they decide in `t`, save that seeing `view` changes their mind about `p`. */
  function Turning(t: Tree, pf: Platform, key: ScopeKey, rules: Rules, p: Path, view: IgnoreView): Rules {
    (v: IgnoreView, q: Path, isDir: bool) =>
      rules(ViewOf(t, pf, Ancestors(key.root, q)), q, isDir) != (q == p && v == view)
  }

  lemma TurningBuildsSame(t: Tree, pf: Platform, key: ScopeKey, rules: Rules, generation: nat, p: Path,
                          view: IgnoreView)
    requires view != ViewOf(t, pf, Ancestors(key.root, p))
    ensures Built(t, pf, key, Turning(t, pf, key, rules, p, view), generation) == Built(t, pf, key, rules, generation)
  {
    hide ViewOf, Built;
    assert SameDecisions(t, pf, key, rules, Turning(t, pf, key, rules, p, view));
    SameDecisionsBuild(t, pf, key, rules, Turning(t, pf, key, rules, p, view), generation);
  }

  /** Nothing above `p` is decided otherwise. */
  lemma {:induction false} TurnsOnlyAt(t: Tree, u: Tree, pf: Platform, key: ScopeKey, rules: Rules, c: Path, p: Path,
                                       view: IgnoreView, q: Path)
    requires RewrittenUnseen(t, u, c) && |q| < |p| && Reached(t, pf, key, rules, q)
    ensures Reached(u, pf, key, Turning(t, pf, key, rules, p, view), q)
    decreases |q|
  {
    hide ViewOf;
    assert KindOf(u, q) == KindOf(t, q);
    if |q| > |key.root| {
      assert KindOf(u, Parent(q)) == KindOf(t, Parent(q));
      TurnsOnlyAt(t, u, pf, key, rules, c, p, view, Parent(q));
    }
  }

  lemma TurnedAt(t: Tree, u: Tree, pf: Platform, key: ScopeKey, rules: Rules, c: Path, p: Path)
    requires RewrittenUnseen(t, u, c) && ViewOf(u, pf, Ancestors(key.root, p)) != ViewOf(t, pf, Ancestors(key.root, p))
    requires |p| > |key.root| && p in t.nodes && Listed(key, Parent(p)) && (key.hidden || !HiddenName(p[|p| - 1]))
    requires !key.noIgnore && KindOf(t, Parent(p)) == Directory && Reached(t, pf, key, rules, Parent(p))
    ensures var other := Turning(t, pf, key, rules, p, ViewOf(u, pf, Ancestors(key.root, p)));
      Reached(t, pf, key, other, Parent(p)) ==> (Reached(u, pf, key, other, p) <==> !Reached(t, pf, key, other, p))
  {
    hide ViewOf;
    var view := ViewOf(u, pf, Ancestors(key.root, p));
    TurnsOnlyAt(t, u, pf, key, rules, c, p, view, Parent(p));
    assert KindOf(u, p) == KindOf(t, p) && KindOf(u, Parent(p)) == KindOf(t, Parent(p));
  }

  /**
    Where markers are trusted, a control of the current granule can be rewritten so that a path
    it governs is decided otherwise.
   */
  lemma StaleControl(t: Tree, g: nat, pf: Platform, key: ScopeKey, rules: Rules, generation: nat, p: Path, c: Path)
    returns (u: Tree, other: Rules)
    requires 0 < g && Timely(t, g) && KindOf(t, key.root) == Directory && pf.marked && !key.noIgnore
    requires Asked(t, key, Built(t, pf, key, rules, generation), p) && c in Governing(pf, key, p) && Rewritable(t, c, g)
    ensures Built(t, pf, key, other, generation) == Built(t, pf, key, rules, generation)
    ensures Next(t, u, g) && Hit(u, pf, key, Built(t, pf, key, rules, generation), ProbeAll)
    ensures WalkEntries(u, pf, key, other) != WalkEntries(t, pf, key, other)
  {
    BuiltShape(t, pf, key, rules, generation);
    u := HiddenWrite(t, g, c);
    RewriteShows(t, u, pf, Ancestors(key.root, p), c);
    ReachedDirectory(t, pf, key, rules, Parent(p));
    hide Built, Next, Hit, Listed, ControlPaths, LooksSame, ScopeDirs, Reached, ViewOf, Turning, Rewritable;
    var view := ViewOf(u, pf, Ancestors(key.root, p));
    other := Turning(t, pf, key, rules, p, view);
    TurningBuildsSame(t, pf, key, rules, generation, p, view);
    BuiltShape(t, pf, key, other, generation);
    ReachedDirectory(t, pf, key, other, Parent(p));
    forall q | q in ControlPaths(ScopeDirs(t, pf, key, rules), pf.global)
      ensures LooksSame(t, u, pf.marked, q)
    {
      RewriteLooksSame(t, u, c, q);
    }
    LooksSameValidates(t, u, pf, key, rules, generation);
    TurnedAt(t, u, pf, key, rules, c, p);
    WalkBelowRoot(t, pf, key, other, p);
    WalkBelowRoot(u, pf, key, other, p);
    assert p in WalkEntries(u, pf, key, other) <==> p !in WalkEntries(t, pf, key, other);
  }

  // --- The rule is exact ----------------------------------------------------

  lemma OneMoreStep(h: seq<Tree>, g: nat, u: Tree)
    requires h != [] && History(h, g) && Next(h[|h| - 1], u, g)
    ensures History(h + [u], g)
  {
    hide Next;
    var run := h + [u];
    forall i | 0 <= i < |run| - 1
      ensures Next(run[i], run[i + 1], g)
    {
      if i < |h| - 1 { assert Next(h[i], h[i + 1], g); }
    }
  }

  /** One step that validates with another walk makes a snapshot stale. */
  lemma StaleStep(h: seq<Tree>, g: nat, pf: Platform, key: ScopeKey, rules: Rules, generation: nat, u: Tree)
    requires h != [] && History(h, g) && Next(h[|h| - 1], u, g) && KindOf(h[|h| - 1], key.root) == Directory
    requires Hit(u, pf, key, Built(h[|h| - 1], pf, key, rules, generation), ProbeAll)
    requires WalkEntries(u, pf, key, rules) != WalkEntries(h[|h| - 1], pf, key, rules)
    ensures !NeverStale(h, g, pf, key, rules, Built(h[|h| - 1], pf, key, rules, generation))
  {
    hide Built, Hit, WalkEntries, History, Next, UmbrellaEligible;
    var run := h + [u];
    OneMoreStep(h, g, u);
    assert run[|h|] == u && run[|h| - 1] == h[|h| - 1];
    HitEitherWay(run, g, |h| - 1, |h|, pf, key, rules, generation);
    assert (h + [u])[|h + [u]| - 1] == u;
  }

  lemma UnsettledGoesStale(h: seq<Tree>, g: nat, pf: Platform, key: ScopeKey, rules: Rules, generation: nat)
    returns (other: Rules)
    requires h != [] && History(h, g) && Timely(h[0], g) && KindOf(h[|h| - 1], key.root) == Directory
    requires !Settled(h[|h| - 1], g, pf, key, Built(h[|h| - 1], pf, key, rules, generation))
    ensures Built(h[|h| - 1], pf, key, other, generation) == Built(h[|h| - 1], pf, key, rules, generation)
    ensures !NeverStale(h, g, pf, key, other, Built(h[|h| - 1], pf, key, rules, generation))
  {
    var t, s := h[|h| - 1], Built(h[|h| - 1], pf, key, rules, generation);
    HistoryTimely(h, g, |h| - 1);
    BuiltShape(t, pf, key, rules, generation);
    hide Built, Hit, WalkEntries, History, Next, NeverStale, Asked, Governing, Rewritable, Timely, ScopeDirs;
    var u: Tree;
    if !ListingsSettled(s, key, t.clock, g) {
      var d :| d in s.directories && Listed(key, d) && !(s.directories[d].modified < Coarse(t.clock, g));
      u, other := StaleListing(t, g, pf, key, rules, generation, d);
    } else {
      var p, c :| Asked(t, key, s, p) && c in Governing(pf, key, p) && Rewritable(t, c, g);
      u, other := StaleControl(t, g, pf, key, rules, generation, p, c);
    }
    StaleStep(h, g, pf, key, other, generation, u);
  }

  /**
    The rule is exact, with and without ignore rules and at every depth bound: under
    all rules that agree with what the snapshot shows it can never be served stale, if
    and only if every listing the walk read and, where markers are trusted, every
    control that governs an existing path was settled when it was built.
   */
  lemma NeverStaleExactly(h: seq<Tree>, g: nat, pf: Platform, key: ScopeKey, rules: Rules, generation: nat)
    requires h != [] && History(h, g) && Timely(h[0], g) && KindOf(h[|h| - 1], key.root) == Directory
    ensures var t, s := h[|h| - 1], Built(h[|h| - 1], pf, key, rules, generation);
      (forall other: Rules :: Built(t, pf, key, other, generation) == s ==> NeverStale(h, g, pf, key, other, s)) <==>
      Settled(t, g, pf, key, s)
  {
    var t, s := h[|h| - 1], Built(h[|h| - 1], pf, key, rules, generation);
    hide Built, History, NeverStale, ListingsSettled, ControlsSettled;
    if Settled(t, g, pf, key, s) {
      forall other: Rules | Built(t, pf, key, other, generation) == s
        ensures NeverStale(h, g, pf, key, other, s)
      {
        SettledNeverStale(h, g, pf, key, other, generation);
      }
    } else {
      var other := UnsettledGoesStale(h, g, pf, key, rules, generation);
    }
  }

  lemma {:induction false} RulesDoNotMatter(t: Tree, pf: Platform, key: ScopeKey, rules: Rules, other: Rules, p: Path)
    requires key.noIgnore
    ensures Reached(t, pf, key, rules, p) <==> Reached(t, pf, key, other, p)
    decreases |p|
  {
    if |p| > |key.root| { RulesDoNotMatter(t, pf, key, rules, other, Parent(p)); }
  }

  lemma RulesDoNotMatterToWalks(t: Tree, pf: Platform, key: ScopeKey, rules: Rules, other: Rules)
    requires key.noIgnore
    ensures WalkEntries(t, pf, key, rules) == WalkEntries(t, pf, key, other)
  {
    forall p
      ensures p in Walk(t, pf, key, rules) <==> p in Walk(t, pf, key, other)
    {
      RulesDoNotMatter(t, pf, key, rules, other, p);
    }
  }

  /** Without ignore rules the racy-timestamp rule for listings alone is exact. */
  lemma NeverStaleWithoutRules(h: seq<Tree>, g: nat, pf: Platform, key: ScopeKey, rules: Rules, generation: nat)
    requires h != [] && History(h, g) && Timely(h[0], g) && KindOf(h[|h| - 1], key.root) == Directory && key.noIgnore
    ensures var t, s := h[|h| - 1], Built(h[|h| - 1], pf, key, rules, generation);
      NeverStale(h, g, pf, key, rules, s) <==> ListingsSettled(s, key, t.clock, g)
  {
    var t, s := h[|h| - 1], Built(h[|h| - 1], pf, key, rules, generation);
    hide Built, History, ListingsSettled, ControlsSettled, Hit, WalkEntries;
    NeverStaleExactly(h, g, pf, key, rules, generation);
    forall other: Rules, u ensures WalkEntries(u, pf, key, rules) == WalkEntries(u, pf, key, other) {
      RulesDoNotMatterToWalks(u, pf, key, rules, other);
    }
  }
}
