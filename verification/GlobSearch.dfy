/**
  The search itself: the list of matches, and exactly when the bounded walk and the
  suffix filters leave it as it is.
 */
module GlobSearch {
  import opened Wrappers
  import opened GlobMatching
  import opened GlobPruning

  // --- The list of matches --------------------------------------------------

  datatype Entry = Entry(path: string, isDirectory: bool)

  predicate AnyMatches(patterns: seq<string>, w: string, p: Platform) {
    patterns != [] && (AnyMatches(patterns[..|patterns| - 1], w, p) || PatternMatches(patterns[|patterns| - 1], w, p))
  }

  function Reported(e: Entry, patterns: seq<string>, p: Platform): seq<string> {
    if !e.isDirectory && AnyMatches(patterns, e.path, p) then [e.path] else []
  }

  /** The paths to report: every file that a pattern matches, in order. */
  function Wanted(entries: seq<Entry>, patterns: seq<string>, p: Platform): seq<string> {
    if entries == [] then []
    else
      var last := entries[|entries| - 1];
      Wanted(entries[..|entries| - 1], patterns, p) + Reported(last, patterns, p)
  }

  /** Tries the patterns in turn, each behind its suffix filter. */
  method MatchesAny(patterns: seq<string>, suffixes: seq<Option<string>>, w: string, p: Platform) returns (r: bool)
    requires |suffixes| == |patterns|
    requires forall k :: 0 <= k < |patterns| ==> suffixes[k] == RequiredLiteralSuffix(patterns[k])
    ensures r == AnyMatches(patterns, w, p)
  {
    hide RequiredLiteralSuffix, PatternMatches, EndsWith;
    for i := 0 to |patterns|
      invariant !AnyMatches(patterns[..i], w, p)
    {
      assert patterns[..i + 1][..i] == patterns[..i];
      if suffixes[i].Some? && !EndsWith(w, suffixes[i].value) {
        if PatternMatches(patterns[i], w, p) { RequiredSuffixIsRequired(patterns[i], w, p); }
        continue;
      }
      if PatternMatches(patterns[i], w, p) {
        MatchedBefore(patterns, i + 1, w, p);
        return true;
      }
    }
    assert patterns[..|patterns|] == patterns;
    r := false;
  }

  lemma {:induction false} MatchedBefore(patterns: seq<string>, i: nat, w: string, p: Platform)
    requires i <= |patterns| && AnyMatches(patterns[..i], w, p)
    ensures AnyMatches(patterns, w, p)
  {
    hide PatternMatches;
    var n := |patterns|;
    if i == n {
      assert patterns[..n] == patterns;
    } else {
      assert patterns[..n - 1][..i] == patterns[..i];
      MatchedBefore(patterns[..n - 1], i, w, p);
    }
  }

  function FirstOf(s: seq<string>, n: nat): seq<string> { if |s| <= n then s else s[..n] }

  /** Reports up to `limit` files; a list that reaches the limit counts as truncated. */
  method MatchEntries(entries: seq<Entry>, patterns: seq<string>, limit: nat, p: Platform)
    returns (files: seq<string>, truncated: bool)
    requires limit > 0
    ensures files == FirstOf(Wanted(entries, patterns, p), limit)
    ensures truncated <==> |Wanted(entries, patterns, p)| >= limit
  {
    hide RequiredLiteralSuffix, AnyMatches, Wanted;
    WantedNone(patterns, p);
    var suffixes := [];
    for i := 0 to |patterns|
      invariant |suffixes| == i && forall k :: 0 <= k < i ==> suffixes[k] == RequiredLiteralSuffix(patterns[k])
    {
      suffixes := suffixes + [RequiredLiteralSuffix(patterns[i])];
    }
    files := [];
    assert entries[..0] == [];
    for i := 0 to |entries|
      invariant files == Wanted(entries[..i], patterns, p) && |files| < limit
    {
      WantedNext(entries, i, patterns, p);
      if entries[i].isDirectory { continue; }
      var matches := MatchesAny(patterns, suffixes, entries[i].path, p);
      if !matches { continue; }
      files := files + [entries[i].path];
      if |files| >= limit { return files, true; }
    }
    assert entries[..|entries|] == entries;
    truncated := false;
  }

  lemma WantedNone(patterns: seq<string>, p: Platform)
    ensures Wanted([], patterns, p) == []
  {
  }

  lemma WantedNext(entries: seq<Entry>, i: nat, patterns: seq<string>, p: Platform)
    requires i < |entries|
    ensures Wanted(entries[..i + 1], patterns, p) ==
            Wanted(entries[..i], patterns, p) + Reported(entries[i], patterns, p)
    ensures Wanted(entries[..i + 1], patterns, p) <= Wanted(entries, patterns, p)
  {
    hide AnyMatches;
    assert entries[..i + 1] == entries[..i] + [entries[i]];
    WantedSnoc(entries[..i], entries[i], patterns, p);
    WantedGrows(entries, i + 1, patterns, p);
  }

  lemma {:induction false} WantedGrows(entries: seq<Entry>, i: nat, patterns: seq<string>, p: Platform)
    requires i <= |entries|
    ensures Wanted(entries[..i], patterns, p) <= Wanted(entries, patterns, p)
  {
    hide AnyMatches;
    var n := |entries|;
    if i == n {
      assert entries[..n] == entries;
    } else {
      assert entries[..n - 1][..i] == entries[..i];
      WantedGrows(entries[..n - 1], i, patterns, p);
    }
  }

  /** The entries of a walk that goes no deeper than the bound. */
  function Shallow(entries: seq<Entry>, depth: Option<nat>, p: Platform): seq<Entry> {
    if depth.None? then entries
    else if entries == [] then []
    else
      var last := entries[|entries| - 1];
      Shallow(entries[..|entries| - 1], depth, p) + if ComponentCount(last.path, p) <= depth.value then [last] else []
  }

  lemma WantedSnoc(entries: seq<Entry>, e: Entry, patterns: seq<string>, p: Platform)
    ensures Wanted(entries + [e], patterns, p) ==
            Wanted(entries, patterns, p) + Reported(e, patterns, p)
  {
    assert (entries + [e])[..|entries|] == entries;
  }

  // --- What the bounded walk loses from a list ------------------------------

  /** The walk reaches every file of the list that is to be reported. */
  predicate NoneDeeper(entries: seq<Entry>, depth: nat, patterns: seq<string>, p: Platform) {
    forall i :: 0 <= i < |entries| ==> WithinReach(entries[i], depth, patterns, p)
  }

  predicate WithinReach(e: Entry, depth: nat, patterns: seq<string>, p: Platform) {
    !e.isDirectory && AnyMatches(patterns, e.path, p) ==> ComponentCount(e.path, p) <= depth
  }

  lemma {:induction false} LostByDepth(entries: seq<Entry>, depth: nat, patterns: seq<string>, p: Platform)
    ensures var all, some := Wanted(entries, patterns, p), Wanted(Shallow(entries, Some(depth), p), patterns, p);
      && |some| <= |all| && (|some| == |all| <==> some == all)
      && (some == all <==> NoneDeeper(entries, depth, patterns, p))
  {
    hide AnyMatches, ComponentCount, WithinReach, NoneDeeper, Reported;
    if entries == [] {
      NothingDeeper(depth, patterns, p);
    } else {
      var front, last := entries[..|entries| - 1], entries[|entries| - 1];
      LostByDepth(front, depth, patterns, p);
      LostLast(front, last, depth, patterns, p);
      assert entries == front + [last];
    }
  }

  lemma NothingDeeper(depth: nat, patterns: seq<string>, p: Platform)
    ensures NoneDeeper([], depth, patterns, p)
  {
  }

  lemma LostLast(front: seq<Entry>, last: Entry, depth: nat, patterns: seq<string>, p: Platform)
    ensures Wanted(front + [last], patterns, p) == Wanted(front, patterns, p) + Reported(last, patterns, p)
    ensures Wanted(Shallow(front + [last], Some(depth), p), patterns, p) ==
            Wanted(Shallow(front, Some(depth), p), patterns, p) +
              if ComponentCount(last.path, p) <= depth then Reported(last, patterns, p) else []
    ensures NoneDeeper(front + [last], depth, patterns, p) <==>
            NoneDeeper(front, depth, patterns, p) && WithinReach(last, depth, patterns, p)
    ensures WithinReach(last, depth, patterns, p) <==>
      Reported(last, patterns, p) == [] || ComponentCount(last.path, p) <= depth
  {
    hide AnyMatches, ComponentCount, Wanted;
    var shallow := Shallow(front, Some(depth), p);
    assert (front + [last])[..|front|] == front;
    WantedSnoc(front, last, patterns, p);
    WantedSnoc(shallow, last, patterns, p);
    assert shallow + [] == shallow;
    assert Wanted(shallow, patterns, p) + [] == Wanted(shallow, patterns, p);
    ReachSnoc(front, last, depth, patterns, p);
  }

  lemma ReachSnoc(front: seq<Entry>, last: Entry, depth: nat, patterns: seq<string>, p: Platform)
    ensures NoneDeeper(front + [last], depth, patterns, p) <==>
            NoneDeeper(front, depth, patterns, p) && WithinReach(last, depth, patterns, p)
  {
    hide WithinReach;
    var entries := front + [last];
    assert entries[|front|] == last && forall i :: 0 <= i < |front| ==> entries[i] == front[i];
  }

  /** The depth bound is no less than the number of components the matcher sees in a pattern. */
  predicate Covered(pattern: string, depth: nat, p: Platform) {
    Compile(pattern, true, p).Some? ==> 1 + SeparatorTokens(Compile(pattern, true, p).value, p) <= depth
  }

  /** A match of one of the patterns is within reach exactly when that pattern is covered. */
  lemma MatchWithinReach(patterns: seq<string>, k: nat, w: string, p: Platform)
    requires k < |patterns| && MaxDepth(patterns).Some? && PatternMatches(patterns[k], w, p)
    ensures ComponentCount(w, p) <= MaxDepth(patterns).value <==> Covered(patterns[k], MaxDepth(patterns).value, p)
  {
    MaxDepthIsMax(patterns, k);
    MatchedComponents(patterns[k], w, p);
  }

  lemma {:induction false} SomeMatches(patterns: seq<string>, w: string, p: Platform)
    ensures AnyMatches(patterns, w, p) <==> exists k :: 0 <= k < |patterns| && PatternMatches(patterns[k], w, p)
  {
    hide PatternMatches;
    if patterns != [] {
      var n := |patterns| - 1;
      SomeMatches(patterns[..n], w, p);
      if AnyMatches(patterns[..n], w, p) {
        var k :| 0 <= k < n && PatternMatches(patterns[..n][k], w, p);
        assert PatternMatches(patterns[k], w, p);
      }
      forall k | 0 <= k < |patterns| && PatternMatches(patterns[k], w, p)
        ensures AnyMatches(patterns, w, p)
      {
        assert k < n ==> patterns[..n][k] == patterns[k];
      }
    }
  }

  /** No file of the list matches a pattern that the bound does not cover. */
  predicate MatchesAreCovered(entries: seq<Entry>, depth: nat, patterns: seq<string>, p: Platform) {
    forall i, k :: 0 <= i < |entries| && 0 <= k < |patterns| ==> !FoundUncovered(entries[i], patterns[k], depth, p)
  }

  predicate FoundUncovered(e: Entry, pattern: string, depth: nat, p: Platform) {
    !e.isDirectory && PatternMatches(pattern, e.path, p) && !Covered(pattern, depth, p)
  }

  /**
    Both prunings together, for any patterns and any list: the bounded walk reports
    what the full walk reports exactly when no file of the list matches a pattern
    with more components than the bound.
   */
  lemma PruningLosesExactly(entries: seq<Entry>, patterns: seq<string>, p: Platform)
    ensures Wanted(Shallow(entries, MaxDepth(patterns), p), patterns, p) == Wanted(entries, patterns, p) <==>
            (MaxDepth(patterns).Some? ==> MatchesAreCovered(entries, MaxDepth(patterns).value, patterns, p))
  {
    hide PatternMatches, Covered, ComponentCount, AnyMatches, MaxDepth;
    if MaxDepth(patterns).Some? {
      var depth: nat := MaxDepth(patterns).value;
      LostByDepth(entries, depth, patterns, p);
      forall i | 0 <= i < |entries|
        ensures WithinReach(entries[i], depth, patterns, p) <==>
                forall k :: 0 <= k < |patterns| ==> !FoundUncovered(entries[i], patterns[k], depth, p)
      {
        ReachIsCover(entries[i], patterns, p);
      }
    }
  }

  lemma ReachIsCover(e: Entry, patterns: seq<string>, p: Platform)
    requires MaxDepth(patterns).Some?
    ensures WithinReach(e, MaxDepth(patterns).value, patterns, p) <==>
            forall k :: 0 <= k < |patterns| ==> !FoundUncovered(e, patterns[k], MaxDepth(patterns).value, p)
  {
    hide PatternMatches, Covered, ComponentCount, AnyMatches, MaxDepth;
    SomeMatches(patterns, e.path, p);
    forall k | 0 <= k < |patterns| && PatternMatches(patterns[k], e.path, p)
      ensures ComponentCount(e.path, p) <= MaxDepth(patterns).value <==>
        Covered(patterns[k], MaxDepth(patterns).value, p)
    {
      MatchWithinReach(patterns, k, e.path, p);
    }
  }

  // --- Which patterns lose a file of some tree ------------------------------

  /** Whether some path without empty components matches: no component is empty, and no class is. */
  ghost predicate Reachable(tokens: seq<Token>, follows: bool, started: bool, p: Platform) {
    if tokens == [] then started
    else
      match tokens[0]
      case Literal(c) =>
        if IsSep(c, p) then started && Reachable(tokens[1..], true, false, p)
          else Reachable(tokens[1..], false, true, p)
      case AnyRecursive => false
      case AnyOf(_, _) => (exists c :: TakesOne(tokens[0], c, follows, p)) && Reachable(tokens[1..], false, true, p)
      case _ => Reachable(tokens[1..], false, true, p)
  }

  lemma {:induction false} ReachableWithin(tokens: seq<Token>, follows: bool, started: bool, p: Platform)
    requires Reachable(tokens, follows, started, p)
    ensures Reachable(tokens, false, true, p)
  {
    if tokens != [] && tokens[0].AnyOf? {
      var c :| TakesOne(tokens[0], c, follows, p);
      assert TakesOne(tokens[0], c, false, p);
    }
  }

  /** A path that matches tokens which some path reaches. */
  lemma {:induction false} PathReached(tokens: seq<Token>, follows: bool, started: bool, p: Platform)
    returns (w: string)
    requires Reachable(tokens, follows, started, p)
    ensures Matches(tokens, w, follows, p) && ProperRest(w, started, p)
  {
    if tokens == [] { return []; }
    var c: char;
    match tokens[0] {
      case Literal(l) => c := l;
      case AnyOf(_, _) => c :| TakesOne(tokens[0], c, follows, p);
      case _ => c := 'x';
    }
    var rest := PathReached(tokens[1..], IsSep(c, p), !IsSep(c, p), p);
    w := [c] + rest;
    assert w[1..] == rest;
    if tokens[0].AnySequence? { assert Matches(tokens, rest, false, p); }
  }

  lemma {:induction false} MatchIsReachable(tokens: seq<Token>, w: string, follows: bool, started: bool, p: Platform)
    requires AnyRecursive !in tokens && Matches(tokens, w, follows, p) && ProperRest(w, started, p)
    ensures Reachable(tokens, follows, started, p)
    decreases |tokens|, |w|
  {
    if tokens != [] {
      assert tokens[0] in tokens;
      MatchesHead(tokens, w, follows, p);
      if tokens[0].AnySequence? {
        if Matches(tokens[1..], w, follows, p) {
          MatchIsReachable(tokens[1..], w, follows, started, p);
          ReachableWithin(tokens[1..], follows, started, p);
        } else {
          MatchIsReachable(tokens, w[1..], false, true, p);
        }
      } else {
        TakenChar(tokens[0], w[0], follows, p);
        MatchIsReachable(tokens[1..], w[1..], IsSep(w[0], p), !IsSep(w[0], p), p);
      }
    }
  }

  /** The bound covers every pattern that some path can match. */
  ghost predicate Suffices(patterns: seq<string>, depth: nat, p: Platform) {
    forall k :: 0 <= k < |patterns| ==> Covered(patterns[k], depth, p) || !CanMatch(patterns[k], p)
  }

  ghost predicate CanMatch(pattern: string, p: Platform) {
    Compile(pattern, true, p).Some? && Reachable(Compile(pattern, true, p).value, true, false, p)
  }

  predicate ProperEntries(entries: seq<Entry>, p: Platform) {
    forall i :: 0 <= i < |entries| ==> ProperPath(entries[i].path, p)
  }

  /** The same list whatever the walk leaves out. */
  predicate Kept(entries: seq<Entry>, patterns: seq<string>, p: Platform) {
    Wanted(Shallow(entries, MaxDepth(patterns), p), patterns, p) == Wanted(entries, patterns, p)
  }

  lemma CanMatchExactly(pattern: string, w: string, p: Platform)
    requires DepthFrom(START, pattern).Some? && PatternMatches(pattern, w, p) && ProperPath(w, p)
    ensures CanMatch(pattern, p)
  {
    BoundedIsNotRecursive(pattern, true, START, p);
    MatchIsReachable(Compile(pattern, true, p).value, w, true, false, p);
  }

  /**
    Pruning loses nothing in any tree exactly when the bound covers every pattern
    that can match at all.
   */
  lemma PruningIsSafeExactly(patterns: seq<string>, p: Platform)
    ensures (forall entries :: ProperEntries(entries, p) ==> Kept(entries, patterns, p)) <==>
            (MaxDepth(patterns).Some? ==> Suffices(patterns, MaxDepth(patterns).value, p))
  {
    hide MaxDepth, Covered, CanMatch, PatternMatches, DepthFrom, ProperPath;
    if MaxDepth(patterns).Some? && !Suffices(patterns, MaxDepth(patterns).value, p) {
      var k :| 0 <= k < |patterns| && !Covered(patterns[k], MaxDepth(patterns).value, p) && CanMatch(patterns[k], p);
      var e := LostEntry(patterns, k, p);
      PruningLosesExactly([e], patterns, p);
      assert FoundUncovered([e][0], patterns[k], MaxDepth(patterns).value, p);
      assert ProperEntries([e], p) && !Kept([e], patterns, p);
    } else {
      forall entries | ProperEntries(entries, p)
        ensures Kept(entries, patterns, p)
      {
        KeptWhenSufficient(entries, patterns, p);
      }
    }
  }

  lemma LostEntry(patterns: seq<string>, k: nat, p: Platform) returns (e: Entry)
    requires k < |patterns| && CanMatch(patterns[k], p)
    ensures !e.isDirectory && PatternMatches(patterns[k], e.path, p) && ProperPath(e.path, p)
  {
    var w := PathReached(Compile(patterns[k], true, p).value, true, false, p);
    e := Entry(w, false);
  }

  lemma KeptWhenSufficient(entries: seq<Entry>, patterns: seq<string>, p: Platform)
    requires ProperEntries(entries, p) && (MaxDepth(patterns).Some? ==> Suffices(patterns, MaxDepth(patterns).value, p))
    ensures Kept(entries, patterns, p)
  {
    hide MaxDepth, Covered, CanMatch, PatternMatches, DepthFrom, ProperPath;
    PruningLosesExactly(entries, patterns, p);
    if MaxDepth(patterns).Some? {
      forall i, k | 0 <= i < |entries| && 0 <= k < |patterns|
        ensures !FoundUncovered(entries[i], patterns[k], MaxDepth(patterns).value, p)
      {
        MaxDepthIsMax(patterns, k);
        if PatternMatches(patterns[k], entries[i].path, p) { CanMatchExactly(patterns[k], entries[i].path, p); }
      }
    }
  }

  /** Where a backslash separates or does not occur, the bound always suffices. */
  lemma PruningLosesNothing(entries: seq<Entry>, patterns: seq<string>, p: Platform)
    requires ProperEntries(entries, p)
    requires p.windows || forall k :: 0 <= k < |patterns| ==> '\\' !in patterns[k]
    ensures Kept(entries, patterns, p)
  {
    hide MaxDepth, Covered, CanMatch, PatternMatches, DepthFrom, ProperPath;
    if MaxDepth(patterns).Some? {
      forall k | 0 <= k < |patterns| && CanMatch(patterns[k], p)
        ensures Covered(patterns[k], MaxDepth(patterns).value, p)
      {
        var e := LostEntry(patterns, k, p);
        MaxDepthIsMax(patterns, k);
        DepthBoundHolds(patterns[k], e.path, p);
        MatchWithinReach(patterns, k, e.path, p);
      }
    }
    KeptWhenSufficient(entries, patterns, p);
  }
}
