/** The glob matcher piece by piece: how each piece of a pattern is read, and which part of a path it takes. */
module GlobLaws {
  import opened Wrappers
  import opened GlobMatching

  predicate Separates(c: char, p: Platform) { c == '/' || (p.windows && c == '\\') }

  // --- Reading a pattern ----------------------------------------------------

  /** Everything but `*` and `[`. */
  lemma PlainPieces(r: string, starts: bool, p: Platform)
    requires r != ""
    ensures r[0] == '?' ==> NextToken(r, starts, p) == Some((AnyChar, 1))
    ensures r[0] !in ['?', '*', '['] ==> NextToken(r, starts, p) == Some((Literal(r[0]), 1))
  {
  }

  lemma StarCount(r: string, n: nat)
    requires n <= |r| && (forall k :: 0 <= k < n ==> r[k] == '*') && (n < |r| ==> r[n] != '*')
    ensures Stars(r) == n
  {
  }

  /**
    One star is a wildcard within a component; two are one for whole components, and stand
    alone in theirs; more are an error.
   */
  lemma StarPieces(r: string, starts: bool, p: Platform)
    requires r != "" && r[0] == '*'
    ensures |r| == 1 || r[1] != '*' ==> NextToken(r, starts, p) == Some((AnySequence, 1))
    ensures starts && r == "**" ==> NextToken(r, starts, p) == Some((AnyRecursive, 2))
    ensures starts && |r| > 2 && r[1] == '*' && Separates(r[2], p) ==>
      NextToken(r, starts, p) == Some((AnyRecursive, 3))
    ensures |r| > 1 && r[1] == '*' && (!starts || (|r| > 2 && !Separates(r[2], p))) ==> NextToken(r, starts, p) == None
  {
    if |r| == 1 || r[1] != '*' { StarCount(r, 1); }
    else if |r| == 2 || r[2] != '*' { StarCount(r, 2); }
    else { assert Stars(r) > 2 by { StarsAtLeast(r); } }
  }

  lemma StarsAtLeast(r: string)
    requires |r| > 2 && r[0] == '*' && r[1] == '*' && r[2] == '*'
    ensures Stars(r) > 2
  {
    assert r[1..][1..] == r[2..];
  }

  lemma {:induction false} Closes(r: string, i: nat, e: nat)
    requires i <= e < |r| && r[e] == ']' && forall k :: i <= k < e ==> r[k] != ']'
    ensures ClosingBracket(r, i) == Some(e)
    decreases e - i
  {
    if i < e { Closes(r, i + 1, e); }
  }

  lemma {:induction false} NeverCloses(r: string, i: nat)
    requires forall k :: i <= k < |r| ==> r[k] != ']'
    ensures ClosingBracket(r, i) == None
    decreases |r| - i
  {
    if i < |r| { NeverCloses(r, i + 1); }
  }

  /** `[...]` and `[!...]`: at least one character, the first of which may be the bracket that would close it. */
  lemma ClassPieces(members: string, negated: bool, rest: string, starts: bool, p: Platform)
    requires members != "" && (forall k :: 1 <= k < |members| ==> members[k] != ']') && (negated || members[0] != '!')
    ensures var open := if negated then "[!" else "[";
      NextToken(open + members + "]" + rest, starts, p) == Some((AnyOf(negated, members), |open| + |members| + 1))
  {
    var open := if negated then "[!" else "[";
    var r, e := open + members + "]" + rest, |open| + |members|;
    assert r[e] == ']' && r[|open|..e] == members;
    assert forall k :: |open| < k < e ==> r[k] == members[k - |open|];
    assert r[0] == '[' && r[1] == if negated then '!' else members[0];
    Closes(r, |open| + 1, e);
  }

  lemma OpenClass(r: string, starts: bool, p: Platform)
    requires r != "" && r[0] == '[' && forall k :: 2 <= k < |r| ==> r[k] != ']'
    ensures NextToken(r, starts, p) == None
  {
    NeverCloses(r, 2);
    NeverCloses(r, 3);
  }

  /** The pieces of a pattern are read one after another. */
  lemma PatternReads(r: string, starts: bool, p: Platform)
    requires r != ""
    ensures Compile("", starts, p) == Some([])
    ensures NextToken(r, starts, p).None? ==> Compile(r, starts, p) == None
    ensures NextToken(r, starts, p).Some? ==>
      var (token, width) := NextToken(r, starts, p).value;
      var rest := Compile(r[width..], Separates(r[width - 1], p), p);
      Compile(r, starts, p) == if rest.Some? then Some([token] + rest.value) else None
  {
    hide NextToken;
  }

  // --- Matching a path ------------------------------------------------------

  /** A wildcard takes no separator, and no dot that begins a component where those are kept apart. */
  predicate WildcardTakes(c: char, begins: bool, p: Platform) {
    !Separates(c, p) && !(p.leadingDot && begins && c == '.')
  }

  lemma OnePieces(t: Token, c: char, begins: bool, p: Platform)
    ensures t.Literal? ==> (TakesOne(t, c, begins, p) <==> c == t.c || (Separates(c, p) && Separates(t.c, p)))
    ensures t.AnyChar? ==> (TakesOne(t, c, begins, p) <==> WildcardTakes(c, begins, p))
    ensures t.AnyOf? ==>
      (TakesOne(t, c, begins, p) <==> WildcardTakes(c, begins, p) && (t.negated <==> !InSpecifiers(t.specifiers, c)))
  {
  }

  /** Members are ranges and single characters. */
  lemma Members(a: char, b: char, rest: string, c: char)
    ensures !InSpecifiers("", c)
    ensures InSpecifiers([a, '-', b] + rest, c) <==> (a <= c && c <= b) || InSpecifiers(rest, c)
    ensures (|rest| >= 2 ==> rest[0] != '-') ==> (InSpecifiers([a] + rest, c) <==> a == c || InSpecifiers(rest, c))
  {
    assert ([a, '-', b] + rest)[3..] == rest && ([a] + rest)[1..] == rest;
  }

  lemma EndPieces(w: string, begins: bool, p: Platform)
    ensures Matches([], w, begins, p) <==> w == ""
  {
  }

  /** A piece for one character takes the first character, and the rest of the pattern the rest of the path. */
  lemma OneMatches(t: Token, rest: seq<Token>, w: string, begins: bool, p: Platform)
    requires !t.AnySequence? && !t.AnyRecursive?
    ensures Matches([t] + rest, w, begins, p) <==>
            w != "" && TakesOne(t, w[0], begins, p) && Matches(rest, w[1..], Separates(w[0], p), p)
  {
    assert ([t] + rest)[1..] == rest;
  }

  /** A star may take the first `k` characters. */
  predicate StarTakes(w: string, k: nat, begins: bool, p: Platform) {
    k <= |w| && forall i :: 0 <= i < k ==> WildcardTakes(w[i], begins && i == 0, p)
  }

  ghost predicate StarLeaves(rest: seq<Token>, w: string, k: nat, begins: bool, p: Platform) {
    StarTakes(w, k, begins, p) && Matches(rest, w[k..], begins && k == 0, p)
  }

  lemma {:induction false} StarMatches(rest: seq<Token>, w: string, begins: bool, p: Platform)
    ensures Matches([AnySequence] + rest, w, begins, p) <==> exists k: nat :: StarLeaves(rest, w, k, begins, p)
    decreases |w|
  {
    var all := [AnySequence] + rest;
    assert all[1..] == rest && w[0..] == w;
    if Matches(rest, w, begins, p) { assert StarLeaves(rest, w, 0, begins, p); }
    if w != "" {
      StarMatches(rest, w[1..], false, p);
      StarShift(rest, w, begins, p);
    } else {
      assert forall k: nat :: StarLeaves(rest, w, k, begins, p) ==> k == 0;
    }
    hide MatchesDeeper;
    assert Matches(all, w, begins, p) <==>
           Matches(rest, w, begins, p) || (w != "" && Takes(w[0], begins, p) && Matches(all, w[1..], false, p));
  }

  /** Taking one more character from the front. */
  lemma StarShift(rest: seq<Token>, w: string, begins: bool, p: Platform)
    requires w != ""
    ensures (exists k: nat :: StarLeaves(rest, w, k, begins, p)) <==>
            Matches(rest, w, begins, p)
            || (WildcardTakes(w[0], begins, p) && exists k: nat :: StarLeaves(rest, w[1..], k, false, p))
  {
    hide Matches;
    var tail := w[1..];
    assert w[0..] == w;
    forall k: nat | StarLeaves(rest, w, k, begins, p) && k > 0
      ensures WildcardTakes(w[0], begins, p) && StarLeaves(rest, tail, k - 1, false, p)
    {
      assert tail[k - 1..] == w[k..];
      assert forall i :: 0 <= i < k - 1 ==> tail[i] == w[i + 1];
    }
    if Matches(rest, w, begins, p) { assert StarLeaves(rest, w, 0, begins, p); }
    forall j: nat | WildcardTakes(w[0], begins, p) && StarLeaves(rest, tail, j, false, p)
      ensures StarLeaves(rest, w, j + 1, begins, p)
    {
      assert tail[j..] == w[j + 1..];
      assert forall i :: 1 <= i < j + 1 ==> w[i] == tail[i - 1];
    }
  }

  /** A dot that begins a component, where that matters. */
  predicate DotAt(w: string, i: nat, begins: bool, p: Platform)
    requires i < |w|
  {
    p.leadingDot && w[i] == '.' && if i == 0 then begins else Separates(w[i - 1], p)
  }

  /** No component begins with a dot in the first `k` characters. */
  predicate NoDots(w: string, k: nat, begins: bool, p: Platform) {
    k <= |w| && forall i :: 0 <= i < k ==> !DotAt(w, i, begins, p)
  }

  /** The rest of the pattern begins after a separator at `k`, or at the very end of the path. */
  ghost predicate DeeperAt(rest: seq<Token>, w: string, k: nat, begins: bool, p: Platform) {
    || (k < |w| && Separates(w[k], p) && NoDots(w, k + 1, begins, p) && Matches(rest, w[k + 1..], true, p))
    || (k == |w| && NoDots(w, k, begins, p)
        && Matches(rest, "", if w == "" then begins else Separates(w[|w| - 1], p), p))
  }

  lemma {:induction false} DeeperMatches(rest: seq<Token>, w: string, begins: bool, p: Platform)
    ensures MatchesDeeper(rest, w, begins, p) <==> exists k: nat :: DeeperAt(rest, w, k, begins, p)
    decreases |w|
  {
    if w == "" {
      assert DeeperAt(rest, w, 0, begins, p) <==> Matches(rest, "", begins, p);
    } else {
      DeeperMatches(rest, w[1..], Separates(w[0], p), p);
      DeeperShift(rest, w, begins, p);
    }
  }

  lemma DeeperShift(rest: seq<Token>, w: string, begins: bool, p: Platform)
    requires w != ""
    ensures (exists k: nat :: DeeperAt(rest, w, k, begins, p)) <==>
            && !(begins && p.leadingDot && w[0] == '.')
            && ((Separates(w[0], p) && Matches(rest, w[1..], true, p))
                || exists k: nat :: DeeperAt(rest, w[1..], k, Separates(w[0], p), p))
  {
    hide Matches;
    var tail, next := w[1..], Separates(w[0], p);
    forall k: nat
      ensures k > 0 ==> (DeeperAt(rest, w, k, begins, p) <==>
                         !(begins && p.leadingDot && w[0] == '.') && DeeperAt(rest, tail, k - 1, next, p))
      ensures k == 0 ==> (DeeperAt(rest, w, 0, begins, p) <==>
                          && !(begins && p.leadingDot && w[0] == '.') && Separates(w[0], p)
                          && Matches(rest, tail, true, p))
    {
      if k > 0 {
        if k <= |w| { DotsShift(w, k, begins, p); }
        if k < |w| {
          DotsShift(w, k + 1, begins, p);
          assert w[k + 1..] == tail[k..];
        }
      } else {
        assert w[1..] == tail;
      }
    }
    if exists k: nat :: DeeperAt(rest, tail, k, next, p) {
      var k: nat :| DeeperAt(rest, tail, k, next, p);
      var j := k + 1;
      assert DeeperAt(rest, w, j, begins, p) <==> !(begins && p.leadingDot && w[0] == '.');
    }
    if exists k: nat :: DeeperAt(rest, w, k, begins, p) {
      var k: nat :| DeeperAt(rest, w, k, begins, p);
      if k > 0 {
        var j: nat := k - 1;
        assert DeeperAt(rest, tail, j, next, p);
      }
    }
    assert DeeperAt(rest, w, 0, begins, p) ==> exists k: nat :: DeeperAt(rest, w, k, begins, p);
  }

  lemma DotsShift(w: string, k: nat, begins: bool, p: Platform)
    requires w != "" && 0 < k <= |w|
    ensures NoDots(w, k, begins, p) <==>
            !(p.leadingDot && w[0] == '.' && begins) && NoDots(w[1..], k - 1, Separates(w[0], p), p)
  {
    var tail, next := w[1..], Separates(w[0], p);
    forall i: nat | i < |tail|
      ensures DotAt(tail, i, next, p) <==> DotAt(w, i + 1, begins, p)
    {
      if i > 0 { assert tail[i - 1] == w[i]; }
    }
    if NoDots(w, k, begins, p) {
      assert DotAt(w, 0, begins, p) <==> p.leadingDot && w[0] == '.' && begins;
      forall i | 0 <= i < k - 1
        ensures !DotAt(tail, i, next, p)
      {
        var j := i + 1;
        assert !DotAt(w, j, begins, p);
      }
    }
    if !DotAt(w, 0, begins, p) && NoDots(tail, k - 1, next, p) {
      forall i | 0 <= i < k
        ensures !DotAt(w, i, begins, p)
      {
        if i > 0 {
          var j := i - 1;
          assert !DotAt(tail, j, next, p);
        }
      }
    }
  }

  /** Two stars take nothing, or whole components up to a separator, or all that is left. */
  lemma RecursiveMatches(rest: seq<Token>, w: string, begins: bool, p: Platform)
    ensures Matches([AnyRecursive] + rest, w, begins, p) <==>
            Matches(rest, w, begins, p) || exists k: nat :: DeeperAt(rest, w, k, begins, p)
  {
    DeeperMatches(rest, w, begins, p);
    assert ([AnyRecursive] + rest)[1..] == rest;
    hide MatchesDeeper, DeeperAt;
  }

  /** A path matches when the pattern is valid and its pieces match from the path's beginning. */
  lemma PathMatches(pattern: string, w: string, p: Platform)
    ensures PatternMatches(pattern, w, p) <==>
            Compile(pattern, true, p).Some? && Matches(Compile(pattern, true, p).value, w, true, p)
  {
  }
}
