/**
  A run in which a lookup serves stale entries: the racy-timestamp rule covers
  directories, but where change markers are trusted not the files that control
  ignore decisions.
 */
module ScopeRaces {
  import opened Wrappers
  import opened FileTree
  import opened PathOrder
  import opened IgnoreFingerprint
  import opened ScopeWalk
  import opened ScopeHistory
  import opened ScopeStaleness

  const ROOT: Path := []
  const IGNORE: Path := [".ignore"]
  const NOTE: Path := ["note"]

  /** Ignore everything but control files when the root's ignore file says so. */
  function IgnoreWhenTold(v: IgnoreView, p: Path, isDir: bool): bool {
    IGNORE in v.contents && v.contents[IGNORE] == "*"
  }

  function QuietRoot(rule: string): Tree {
    Tree(SLACK, map[ROOT := Dir(0, 0), NOTE := File("", 0, 0)][IGNORE := File(rule, SLACK, SLACK)])
  }

  lemma AboveNote()
    ensures Ancestors(ROOT, NOTE) == {ROOT}
  {
    AncestorsStep(ROOT, NOTE);
    assert Ancestors(ROOT, ROOT) == {} && {} + {ROOT} == {ROOT};
  }

  lemma RuleSeen(t: Tree, pf: Platform, rule: string)
    requires KindOf(t, IGNORE) == RegularFile && t.nodes[IGNORE].content == rule
    ensures var v := ViewOf(t, pf, {ROOT}); IGNORE in v.contents && v.contents[IGNORE] == rule
  {
    assert IgnorePath(ROOT) == IGNORE;
    OwnControl({ROOT}, pf.global, ROOT);
    hide ControlPaths;
  }

  lemma NoteReached(t: Tree, pf: Platform, key: ScopeKey, rules: Rules)
    requires key == ScopeKey(ROOT, false, false, None) && KindOf(t, ROOT) == Directory && KindOf(t, NOTE) == RegularFile
    ensures NOTE in WalkEntries(t, pf, key, rules) <==> !rules(ViewOf(t, pf, {ROOT}), NOTE, false)
  {
    hide ViewOf, Ancestors;
    AboveNote();
    assert NOTE[|NOTE| - 1] == "note" && Parent(NOTE) == ROOT;
    assert Reached(t, pf, key, rules, ROOT);
    assert Admitted(t, pf, key, rules, NOTE) <==> !rules(ViewOf(t, pf, {ROOT}), NOTE, false);
    WalkBelowRoot(t, pf, key, rules, NOTE);
  }

  lemma NoteAdmitted(rule: string, key: ScopeKey)
    requires key == ScopeKey(ROOT, false, false, None)
    ensures NOTE in WalkEntries(QuietRoot(rule), Platform(true, None), key, IgnoreWhenTold) <==> rule != "*"
  {
    hide WalkEntries, ViewOf;
    RuleSeen(QuietRoot(rule), Platform(true, None), rule);
    NoteReached(QuietRoot(rule), Platform(true, None), key, IgnoreWhenTold);
  }

  lemma QuietRootWellFormed(rule: string)
    ensures WellFormed(QuietRoot(rule))
  {
    var t := QuietRoot(rule);
    forall p | p in t.nodes && p != []
      ensures KindOf(t, Parent(p)) == Directory
    {
      assert |p| == 1 && Parent(p) == ROOT;
    }
  }

  lemma RewrittenNodes()
    ensures QuietRoot("*").nodes == QuietRoot("a").nodes[IGNORE := File("*", SLACK, SLACK)]
  {
  }

  lemma IgnoreIsFile(rule: string)
    ensures KindOf(QuietRoot(rule), IGNORE) == RegularFile && QuietRoot(rule).clock == SLACK
  {
  }

  lemma RewriteStep()
    ensures Next(QuietRoot("a"), QuietRoot("*"), SLACK)
  {
    hide QuietRoot, Next, Coarse;
    RewrittenNodes();
    CoarseNow();
    IgnoreIsFile("a");
    IgnoreIsFile("*");
    WriteStep(QuietRoot("a"), QuietRoot("*"), IGNORE, "*", SLACK, SLACK);
  }

  lemma CoarseNow()
    ensures Coarse(SLACK, SLACK) == SLACK
  {
  }

  lemma RewriteIsAHistory()
    ensures History([QuietRoot("a"), QuietRoot("*")], SLACK)
  {
    QuietRootWellFormed("a");
    RewriteStep();
    hide Next, WellFormed, QuietRoot;
  }

  lemma QuietRootDirectories(key: ScopeKey, pf: Platform, generation: nat)
    requires key.root == ROOT
    ensures var s := Built(QuietRoot("a"), pf, key, IgnoreWhenTold, generation);
      forall d :: d in s.directories ==> s.directories[d].modified + SLACK <= s.floor
  {
    hide Reached, Walk, Fingerprinted;
    BuiltShape(QuietRoot("a"), pf, key, IgnoreWhenTold, generation);
  }

  lemma RewriteIsUnseen()
    ensures RewrittenUnseen(QuietRoot("a"), QuietRoot("*"), IGNORE)
  {
  }

  lemma RewriteValidates(key: ScopeKey, pf: Platform, generation: nat)
    requires key.root == ROOT && pf.marked
    ensures Hit(QuietRoot("*"), pf, key, Built(QuietRoot("a"), pf, key, IgnoreWhenTold, generation), ProbeAll)
  {
    var t, u := QuietRoot("a"), QuietRoot("*");
    RewriteIsUnseen();
    assert KindOf(t, key.root) == Directory;
    hide QuietRoot, Built, Hit, LooksSame, ControlPaths, ScopeDirs;
    forall q | q in ControlPaths(ScopeDirs(t, pf, key, IgnoreWhenTold), pf.global)
      ensures LooksSame(t, u, pf.marked, q)
    {
      RewriteLooksSame(t, u, IGNORE, q);
    }
    LooksSameValidates(t, u, pf, key, IgnoreWhenTold, generation);
  }

  /**
    All directory stamps are old, yet rewriting `.ignore` in the granule in which
    it was recorded, with as many bytes, goes unnoticed where a change marker is
    trusted: the lookup validates and its entries are stale.
   */
  lemma RewrittenIgnoreFile(generation: nat)
    ensures var t, u, key, pf := QuietRoot("a"), QuietRoot("*"), ScopeKey(ROOT, false, false, None),
            Platform(true, None);
      var s := Built(t, pf, key, IgnoreWhenTold, generation);
      && History([t, u], SLACK)
      && (forall d :: d in s.directories ==> s.directories[d].modified + SLACK <= s.floor)
      && Hit(u, pf, key, s, ProbeAll)
      && WalkEntries(u, pf, key, IgnoreWhenTold) != WalkEntries(t, pf, key, IgnoreWhenTold)
  {
    hide *;
    var t, u, key, pf := QuietRoot("a"), QuietRoot("*"), ScopeKey(ROOT, false, false, None), Platform(true, None);
    RewriteIsAHistory();
    QuietRootDirectories(key, pf, generation);
    RewriteValidates(key, pf, generation);
    NoteAdmitted("a", key);
    NoteAdmitted("*", key);
  }
}
