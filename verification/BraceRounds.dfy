/** Rounds of expansions until nothing is left to expand, and exactly which patterns are refused. */
module BraceRounds {
  import opened Wrappers
  import opened Languages
  import opened BraceSyntax
  import opened BraceExpansion
  import opened BraceRewriting
  import opened BraceCounting

  /** One round over some patterns: the new list, and whether anything was expanded. */
  function Round(patterns: seq<string>): Result<(seq<string>, bool), GlobError> {
    if patterns == [] then Ok(([], false))
    else
      match Round(patterns[..|patterns| - 1])
      case Err(e) => Err(e)
      case Ok((before, expanded)) =>
        match ExpandOne(patterns[|patterns| - 1])
        case Err(e) => Err(e)
        case Ok(expansion) =>
          var after := if expansion.Some? then before + expansion.value else before + [patterns[|patterns| - 1]];
          if |after| > MAX_EXPANDED_PATTERNS then Err(TooManyPatterns) else Ok((after, expanded || expansion.Some?))
  }

  /** The patterns after some rounds, unless one failed. */
  function AfterRounds(pattern: string, rounds: nat): Result<seq<string>, GlobError> {
    if rounds == 0 then Ok([pattern])
    else
      match AfterRounds(pattern, rounds - 1)
      case Err(e) => Err(e)
      case Ok(patterns) =>
        match Round(patterns)
        case Err(e) => Err(e)
        case Ok((after, _)) => Ok(after)
  }

  predicate Expandable(s: string) { FirstGroup(s, 0, []).Some? }

  lemma {:induction false} MeaningOfBoth(a: seq<string>, b: seq<string>)
    ensures MeaningOfAll(a + b) == MeaningOfAll(a) + MeaningOfAll(b)
  {
    hide PatternMeaning;
    if b == [] {
      assert a + b == a;
    } else {
      assert (a + b)[..|a + b| - 1] == a + b[..|b| - 1] && (a + b)[|a + b| - 1] == b[|b| - 1];
      MeaningOfBoth(a, b[..|b| - 1]);
    }
  }

  lemma MeaningOfOne(s: string)
    ensures MeaningOfAll([s]) == PatternMeaning(s)
  {
    hide PatternMeaning;
    assert [s][..0] == [];
  }

  ghost predicate Shrunk(patterns: seq<string>, bound: nat) {
    forall p :: p in patterns && Expandable(p) ==> Braces(p) <= bound
  }

  lemma ExpansionShrunk(s: string, bound: nat)
    requires ExpandOne(s).Ok? && ExpandOne(s).value.Some? && Braces(s) <= bound + 1
    ensures Shrunk(ExpandOne(s).value.value, bound)
  {
    hide ExpandOne, Braces, Expandable;
    ExpandOneShrinks(s);
  }

  lemma ExpandableHasBrace(s: string)
    requires Expandable(s)
    ensures Braces(s) > 0
  {
    hide Split, FirstGroup, Braces;
    GroupInside(s, 0, []);
    OpensAreBraces(s, 0, []);
    var (start, end) := FirstGroup(s, 0, []).value;
    BracesAround(s, start, end);
  }

  lemma NothingLeft(patterns: seq<string>)
    requires Shrunk(patterns, 0)
    ensures forall p :: p in patterns ==> !Expandable(p)
  {
    hide Expandable, Braces;
    forall p | p in patterns
      ensures !Expandable(p)
    {
      if Expandable(p) { ExpandableHasBrace(p); }
    }
  }

  lemma ExpandableExpands(s: string)
    requires ExpandOne(s).Ok?
    ensures ExpandOne(s).value.Some? <==> Expandable(s)
  {
  }

  /** A round keeps the meaning, and what it leaves to expand has fewer braces. */
  lemma {:induction false} RoundKeeps(patterns: seq<string>, bound: nat)
    requires Shrunk(patterns, bound + 1)
    ensures Round(patterns).Ok? ==>
      var (after, expanded) := Round(patterns).value;
      && MeaningOfAll(after) == MeaningOfAll(patterns) && Shrunk(after, bound) && |after| <= MAX_EXPANDED_PATTERNS
      && (!expanded ==> after == patterns && forall p :: p in patterns ==> !Expandable(p))
      && (expanded ==> exists p :: p in patterns && Expandable(p))
  {
    hide ExpandOne, Expandable, Braces, PatternMeaning;
    if patterns != [] && Round(patterns).Ok? {
      var n := |patterns| - 1;
      var front, last := patterns[..n], patterns[n];
      assert front + [last] == patterns;
      RoundKeeps(front, bound);
      var before, expansion := Round(front).value.0, ExpandOne(last).value;
      ExpandOneMeaning(last);
      ExpandableExpands(last);
      MeaningOfOne(last);
      if expansion.Some? {
        ExpansionShrunk(last, bound);
        MeaningOfBoth(before, expansion.value);
      } else {
        MeaningOfBoth(before, [last]);
      }
    }
  }

  /** A round keeps the count and the widths, and fails only over them. */
  lemma {:induction false} RoundCounts(patterns: seq<string>)
    ensures match Round(patterns)
      case Err(TooManyAlternatives) => !AllNarrow(patterns)
      case Err(TooManyPatterns) => Total(patterns) > 1024
      case Ok((after, _)) =>
        |after| <= 1024 && Total(after) == Total(patterns) && (AllNarrow(after) <==> AllNarrow(patterns))
  {
    hide ExpandOne, PatternSize;
    if patterns != [] {
      var n := |patterns| - 1;
      var front, last := patterns[..n], patterns[n];
      assert front + [last] == patterns;
      RoundCounts(front);
      TotalConcat(front, [last]);
      if Round(front).Ok? {
        var before := Round(front).value.0;
        ExpandOneCounts(last);
        OneTotal(last);
        var added := if ExpandOne(last).Ok? && ExpandOne(last).value.Some? then ExpandOne(last).value.value else [last];
        TotalConcat(before, added);
        TotalAtLeast(before + added);
      }
    }
  }

  lemma OneTotal(s: string)
    ensures Total([s]) == PatternSize(s).count && (AllNarrow([s]) <==> PatternSize(s).narrow)
  {
    hide PatternSize;
    assert [s][..0] == [];
  }

  /** Patterns with nothing left to expand count as many as they are. */
  lemma {:induction false} LiteralsCount(patterns: seq<string>)
    requires forall p :: p in patterns ==> !Expandable(p)
    ensures Total(patterns) == |patterns| && AllNarrow(patterns)
  {
    hide Expandable, PatternSize, ExpandOne;
    if patterns != [] {
      var n := |patterns| - 1;
      LiteralsCount(patterns[..n]);
      assert patterns == patterns[..n] + [patterns[n]];
      LiteralSize(patterns[n]);
    }
  }

  lemma LiteralSize(s: string)
    requires !Expandable(s)
    ensures PatternSize(s) == ONE
  {
    hide PatternSize;
    ExpandOneCounts(s);
  }

  /** One round, as a loop. */
  method ExpandRound(results: seq<string>) returns (r: Result<(seq<string>, bool), GlobError>)
    ensures r == Round(results)
  {
    hide ExpandOne;
    var expanded, newResults := false, [];
    for i := 0 to |results|
      invariant Round(results[..i]) == Ok((newResults, expanded))
    {
      assert results[..i + 1][..i] == results[..i];
      RoundPrefix(results, i + 1);
      var expansion := ExpandSingleBrace(results[i]);
      if expansion.Err? { return Err(expansion.error); }
      if expansion.value.Some? {
        newResults := newResults + expansion.value.value;
        expanded := true;
      } else {
        newResults := newResults + [results[i]];
      }
      if |newResults| > MAX_EXPANDED_PATTERNS { return Err(TooManyPatterns); }
    }
    assert results[..|results|] == results;
    r := Ok((newResults, expanded));
  }

  /** A round that fails early fails. */
  lemma {:induction false} RoundPrefix(results: seq<string>, i: nat)
    requires i <= |results|
    ensures Round(results[..i]).Err? ==> Round(results) == Round(results[..i])
  {
    hide ExpandOne;
    var n := |results|;
    if i == n {
      assert results[..n] == results;
    } else {
      assert results[..n - 1][..i] == results[..i];
      RoundPrefix(results[..n - 1], i);
    }
  }

  lemma {:induction false} AllMeanThemselves(patterns: seq<string>)
    requires forall p :: p in patterns ==> !Expandable(p)
    ensures MeaningOfAll(patterns) == (set p | p in patterns)
  {
    hide Expandable, PatternMeaning;
    if patterns != [] {
      var n := |patterns| - 1;
      AllMeanThemselves(patterns[..n]);
      assert patterns == patterns[..n] + [patterns[n]];
      LiteralMeaning(patterns[n]);
    }
  }

  lemma LiteralMeaning(s: string)
    requires !Expandable(s)
    ensures PatternMeaning(s) == {s}
  {
    hide FirstGroup, PatternMeaning;
    ExpandOneMeaning(s);
  }

  /**
    Brace expansion, round by round. It succeeds if and only if no choice of the
    pattern has more than 64 alternatives and the product of their numbers is at most
    1024. The patterns returned are then as many as that product, exactly the strings
    the pattern means, and nothing is left to expand; there is at most one round for
    each brace, and a last one.
   */
  method ExpandBraces(pattern: string) returns (r: Result<seq<string>, GlobError>, ghost rounds: nat)
    ensures r == AfterRounds(pattern, rounds) && rounds <= Braces(pattern) + 1
    ensures r.Ok? <==> PatternSize(pattern).narrow && PatternSize(pattern).count <= 1024
    ensures r == Err(TooManyAlternatives) ==> !PatternSize(pattern).narrow
    ensures r == Err(TooManyPatterns) ==> PatternSize(pattern).count > 1024
    ensures r.Ok? ==> |r.value| == PatternSize(pattern).count
    ensures r.Ok? ==> (set p | p in r.value) == PatternMeaning(pattern)
    ensures r.Ok? ==> forall p :: p in r.value ==> !Expandable(p)
  {
    hide Braces, Expandable, ExpandOne, PatternMeaning, PatternSize, Round, Total, AllNarrow;
    var results := [pattern];
    ghost var bound := Braces(pattern);
    rounds := 0;
    MeaningOfOne(pattern);
    OneTotal(pattern);
    while true
      invariant AfterRounds(pattern, rounds) == Ok(results)
      invariant MeaningOfAll(results) == PatternMeaning(pattern)
      invariant Total(results) == PatternSize(pattern).count && (AllNarrow(results) <==> PatternSize(pattern).narrow)
      invariant Shrunk(results, bound) && rounds + bound == Braces(pattern)
      decreases bound
    {
      if bound > 0 {
        RoundKeeps(results, bound - 1);
      } else {
        NothingLeft(results);
        RoundKeeps(results, 0);
      }
      RoundCounts(results);
      var round := ExpandRound(results);
      rounds := rounds + 1;
      if round.Err? { return Err(round.error), rounds; }
      if !round.value.1 {
        AllMeanThemselves(round.value.0);
        LiteralsCount(round.value.0);
        return Ok(round.value.0), rounds;
      }
      results := round.value.0;
      bound := bound - 1;
    }
  }
}
