/**
  Two analyses that spare a search work: the literal every match of a pattern ends
  with, and how deep a walk has to go. Neither may lose a match.
 */
module GlobPruning {
  import opened Wrappers
  import opened GlobMatching

  predicate IsGlobSeparator(c: char) { c == '/' || c == '\\' }

  // --- The literal every match ends with ------------------------------------

  predicate IsMeta(c: char) { c == '*' || c == '?' || c == '[' || c == ']' }

  /** What follows the last metacharacter. */
  function Tail(r: string): (t: string)
    ensures |t| <= |r|
  {
    if r == [] || IsMeta(r[|r| - 1]) then []
    else Tail(r[..|r| - 1]) + [r[|r| - 1]]
  }

  predicate HasSeparator(s: string) { s != [] && (IsGlobSeparator(s[0]) || HasSeparator(s[1..])) }

  function RequiredLiteralSuffix(pattern: string): Option<string> {
    var suffix := Tail(pattern);
    if suffix == [] || HasSeparator(suffix) then None else Some(suffix)
  }

  /** A text the pattern ends with, without metacharacters or separators, that nothing literal stands before. */
  predicate IsSuffix(pattern: string, s: string) {
    s != "" && (forall c :: c in s ==> c !in "/\\") && IsTail(pattern, s)
  }

  /** A literal end of the pattern that nothing literal stands before. */
  predicate IsTail(r: string, t: string) {
    && EndsWith(r, t) && (forall c :: c in t ==> c !in "*?[]")
    && (t == r || r[|r| - |t| - 1] in "*?[]")
  }

  lemma TailGrows(front: string, t: string, c: char)
    requires IsTail(front, t) && c !in "*?[]"
    ensures IsTail(front + [c], t + [c])
  {
    assert t == front ==> t + [c] == front + [c];
    assert t != front ==> |t| < |front| && (front + [c])[|front| - |t| - 1] == front[|front| - |t| - 1];
  }

  lemma {:induction false} TailMeaning(r: string)
    ensures IsTail(r, Tail(r))
  {
    if r != [] {
      var front, c := r[..|r| - 1], r[|r| - 1];
      assert front + [c] == r && (IsMeta(c) <==> c in "*?[]");
      if !IsMeta(c) {
        TailMeaning(front);
        TailGrows(front, Tail(front), c);
        hide IsTail, IsMeta;
      }
    }
  }

  lemma {:induction false} NoSeparator(s: string)
    ensures HasSeparator(s) <==> exists c :: c in s && c in "/\\"
  {
    if s != [] {
      NoSeparator(s[1..]);
      assert forall c :: c in s <==> c == s[0] || c in s[1..];
      assert IsGlobSeparator(s[0]) <==> s[0] in "/\\";
    }
  }

  lemma LongerEnd(r: string, a: string, b: string)
    requires EndsWith(r, a) && EndsWith(r, b) && |a| < |b|
    ensures r[|r| - |a| - 1] in b
  {
    assert r[|r| - |b|..][|b| - |a| - 1] == r[|r| - |a| - 1];
  }

  lemma SameEnd(r: string, a: string, b: string)
    requires EndsWith(r, a) && EndsWith(r, b) && |a| == |b|
    ensures a == b
  {
  }

  lemma OneTail(r: string, a: string, b: string)
    requires IsTail(r, a) && IsTail(r, b)
    ensures a == b
  {
    if |a| < |b| { LongerEnd(r, a, b); }
    if |b| < |a| { LongerEnd(r, b, a); }
    SameEnd(r, a, b);
  }

  /** The required suffix is the longest literal end of the pattern, unless that is empty or crosses a separator. */
  lemma RequiredSuffixExactly(pattern: string, s: string)
    ensures RequiredLiteralSuffix(pattern) == Some(s) <==> IsSuffix(pattern, s)
  {
    hide Tail, HasSeparator, IsTail;
    TailMeaning(pattern);
    NoSeparator(Tail(pattern));
    if IsTail(pattern, s) { OneTail(pattern, s, Tail(pattern)); }
  }

  predicate EndsWith(w: string, s: string) { |s| <= |w| && w[|w| - |s|..] == s }

  lemma {:induction false} TailConcat(a: string, b: string)
    ensures Tail(a + b) == if Tail(b) == b then Tail(a) + b else Tail(b)
  {
    if b == [] {
      assert a + b == a && Tail(a) + b == Tail(a);
    } else {
      var front, c := b[..|b| - 1], b[|b| - 1];
      assert (a + b)[..|a + b| - 1] == a + front && (a + b)[|a + b| - 1] == c;
      TailConcat(a, front);
      assert b == front + [c];
      if !IsMeta(c) {
        assert Tail(b) == b <==> Tail(front) == front by {
          if Tail(b) == b { assert Tail(b)[..|front|] == b[..|front|]; }
        }
        assert Tail(a) + front + [c] == Tail(a) + b;
      }
    }
  }

  lemma TailOne(c: char)
    ensures Tail([c]) == if IsMeta(c) then [] else [c]
  {
    assert [c][..0] == [];
  }

  lemma {:induction false} SeparatorConcat(a: string, b: string)
    ensures HasSeparator(a + b) <==> HasSeparator(a) || HasSeparator(b)
  {
    if a == [] {
      assert a + b == b;
    } else {
      assert (a + b)[1..] == a[1..] + b && (a + b)[0] == a[0];
      SeparatorConcat(a[1..], b);
    }
  }

  /** A separator at the end of a text is in its tail. */
  lemma TailKeepsSeparator(r: string)
    requires r != [] && IsGlobSeparator(r[|r| - 1])
    ensures HasSeparator(Tail(r))
  {
    var c := r[|r| - 1];
    SeparatorConcat(Tail(r[..|r| - 1]), [c]);
    assert HasSeparator([c]);
  }

  /** A token that is not a literal ends in a metacharacter or a separator. */
  lemma TokenEnd(r: string, starts: bool, p: Platform)
    requires r != [] && NextToken(r, starts, p).Some?
    ensures var (token, width) := NextToken(r, starts, p).value;
      && (token.Literal? ==> token == Literal(r[0]) && width == 1)
      && (!token.Literal? ==> IsMeta(r[width - 1]) || IsGlobSeparator(r[width - 1]))
  {
  }

  /** Taking the front off a pattern whose tail holds no separator. */
  lemma TailOfRest(r: string, width: nat)
    requires 0 < width <= |r| && !HasSeparator(Tail(r))
    requires IsMeta(r[width - 1]) || IsGlobSeparator(r[width - 1])
    ensures Tail(r) == Tail(r[width..]) && |Tail(r)| < |r|
  {
    hide HasSeparator;
    var front, rest := r[..width], r[width..];
    assert r == front + rest && front[width - 1] == r[width - 1];
    TailConcat(front, rest);
    if Tail(rest) == rest {
      SeparatorConcat(Tail(front), rest);
      if IsGlobSeparator(r[width - 1]) { TailKeepsSeparator(front); }
      assert IsMeta(r[width - 1]) ==> [] + rest == rest;
    }
  }

  /** Taking a literal off. */
  lemma TailOfLiteral(r: string)
    requires r != [] && !HasSeparator(Tail(r)) && !IsMeta(r[0])
    ensures if Tail(r[1..]) == r[1..] then Tail(r) == r && !IsGlobSeparator(r[0])
            else Tail(r) == Tail(r[1..]) && |Tail(r)| < |r|
    ensures !HasSeparator(Tail(r[1..]))
  {
    var front, rest := [r[0]], r[1..];
    assert r == front + rest;
    TailConcat(front, rest);
    TailOne(r[0]);
    if Tail(rest) == rest { SeparatorConcat(front, rest); }
  }

  lemma EndsLater(w: string, i: nat, s: string)
    requires i <= |w| && EndsWith(w[i..], s)
    ensures EndsWith(w, s)
  {
    assert w[|w| - |s|..] == w[i..][|w| - i - |s|..];
  }

  /** What a match of a pattern ends with, whatever the path before it. */
  ghost predicate Fits(r: string, w: string) {
    EndsWith(w, Tail(r)) && (Tail(r) == r ==> w == r)
  }

  lemma FitsLater(r: string, width: nat, w: string, i: nat)
    requires 0 < width <= |r| && i <= |w| && Tail(r) == Tail(r[width..]) && |Tail(r)| < |r| && Fits(r[width..], w[i..])
    ensures Fits(r, w)
  {
    EndsLater(w, i, Tail(r));
  }

  /** The first token of a match: it takes a character, or it is a sequence that may take none. */
  lemma MatchesHead(tokens: seq<Token>, w: string, follows: bool, p: Platform)
    requires tokens != [] && Matches(tokens, w, follows, p)
    ensures match tokens[0]
      case AnySequence =>
        Matches(tokens[1..], w, follows, p) || (w != [] && Takes(w[0], follows, p) && Matches(tokens, w[1..], false, p))
      case AnyRecursive => Matches(tokens[1..], w, follows, p) || MatchesDeeper(tokens[1..], w, follows, p)
      case t => w != [] && TakesOne(t, w[0], follows, p) && Matches(tokens[1..], w[1..], IsSep(w[0], p), p)
  {
  }

  lemma CompileHead(r: string, starts: bool, p: Platform)
    requires r != [] && Compile(r, starts, p).Some?
    ensures NextToken(r, starts, p).Some?
    ensures var (token, width) := NextToken(r, starts, p).value;
      var tokens, rest := Compile(r, starts, p).value, Compile(r[width..], StartsAfter(r, width, p), p);
      rest.Some? && tokens != [] && tokens[0] == token && tokens[1..] == rest.value
  {
  }

  lemma {:induction false} SuffixHolds(r: string, starts: bool, w: string, follows: bool, p: Platform)
    requires Compile(r, starts, p).Some? && Matches(Compile(r, starts, p).value, w, follows, p)
    requires !HasSeparator(Tail(r))
    ensures Fits(r, w)
    decreases |r|, |w|, 1
  {
    hide Tail, HasSeparator, Fits, TakesOne, NextToken, Matches, MatchesDeeper, Compile, StartsAfter;
    if r == [] {
      assert Fits(r, w) by { NothingLeft(w, follows, starts, p); NothingFits(w); }
    } else {
      CompileHead(r, starts, p);
      MatchesHead(Compile(r, starts, p).value, w, follows, p);
      var (token, width) := NextToken(r, starts, p).value;
      var rest, restStarts := r[width..], StartsAfter(r, width, p);
      TokenEnd(r, starts, p);
      if !token.Literal? || IsMeta(r[0]) {
        TailOfRest(r, width);
        match token
        case AnySequence =>
          if Matches(Compile(rest, restStarts, p).value, w, follows, p) {
            SuffixHolds(rest, restStarts, w, follows, p);
            assert w[0..] == w;
            FitsLater(r, width, w, 0);
          } else {
            SuffixHolds(r, starts, w[1..], false, p);
            FitsMore(r, w);
          }
        case AnyRecursive =>
          assert w[0..] == w;
          if Matches(Compile(rest, restStarts, p).value, w, follows, p) {
            SuffixHolds(rest, restStarts, w, follows, p);
            FitsLater(r, width, w, 0);
          } else {
            var i := SuffixDeeper(rest, restStarts, w, follows, p);
            FitsLater(r, width, w, i);
          }
        case _ =>
          SuffixHolds(rest, restStarts, w[1..], IsSep(w[0], p), p);
          FitsLater(r, width, w, 1);
      } else {
        TailOfLiteral(r);
        SuffixHolds(rest, restStarts, w[1..], IsSep(w[0], p), p);
        if Tail(rest) == rest { FitsLiteral(r, w, follows, p); } else { FitsLater(r, 1, w, 1); }
      }
    }
  }

  lemma NothingLeft(w: string, follows: bool, starts: bool, p: Platform)
    requires Compile([], starts, p).Some? && Matches(Compile([], starts, p).value, w, follows, p)
    ensures w == []
  {
  }

  lemma NothingFits(w: string)
    requires w == []
    ensures Fits([], w)
  {
  }

  /** More path in front of a fit, for a pattern that is not all tail. */
  lemma FitsMore(r: string, w: string)
    requires w != [] && Fits(r, w[1..]) && |Tail(r)| < |r|
    ensures Fits(r, w)
  {
    EndsLater(w, 1, Tail(r));
  }

  lemma FitsLiteral(r: string, w: string, follows: bool, p: Platform)
    requires r != [] && w != [] && TakesOne(Literal(r[0]), w[0], follows, p) && !IsGlobSeparator(r[0])
    requires Tail(r) == r && Tail(r[1..]) == r[1..] && Fits(r[1..], w[1..])
    ensures Fits(r, w)
  {
    hide Tail;
    assert w[1..] == r[1..] && w[0] == r[0];
    SameHeadAndTail(w, r);
    assert w[|w| - |r|..] == w;
  }

  lemma SameHeadAndTail(a: string, b: string)
    requires a != [] && b != [] && a[0] == b[0] && a[1..] == b[1..]
    ensures a == b
  {
    assert a == [a[0]] + a[1..] && b == [b[0]] + b[1..];
  }

  lemma {:induction false} SuffixDeeper(r: string, starts: bool, w: string, follows: bool, p: Platform) returns (i: nat)
    requires Compile(r, starts, p).Some? && MatchesDeeper(Compile(r, starts, p).value, w, follows, p)
    requires !HasSeparator(Tail(r))
    ensures i <= |w| && Fits(r, w[i..])
    decreases |r| + 1, |w|, 0
  {
    hide Tail, HasSeparator, Fits, Compile;
    var rest := Compile(r, starts, p).value;
    if w == [] {
      SuffixHolds(r, starts, w, follows, p);
      i := 0;
    } else if IsSep(w[0], p) && Matches(rest, w[1..], true, p) {
      SuffixHolds(r, starts, w[1..], true, p);
      i := 1;
    } else {
      var k := SuffixDeeper(r, starts, w[1..], IsSep(w[0], p), p);
      i := k + 1;
      assert w[1..][k..] == w[i..];
    }
  }

  /** The suffix filter rejects no match. */
  lemma RequiredSuffixIsRequired(pattern: string, w: string, p: Platform)
    requires PatternMatches(pattern, w, p) && RequiredLiteralSuffix(pattern).Some?
    ensures EndsWith(w, RequiredLiteralSuffix(pattern).value)
  {
    SuffixHolds(pattern, true, w, true, p);
  }

  // --- How deep a walk has to go --------------------------------------------

  /** The counters of the scan. */
  datatype Scan = Scan(depth: nat, componentLen: nat, recursive: bool, inClass: bool)

  const START := Scan(0, 0, false, false)

  /** `None` for a component that is `**`. */
  function FinishComponent(s: Scan): Option<Scan> {
    if s.componentLen == 0 then Some(s)
    else if s.componentLen == 2 && s.recursive then None
    else Some(Scan(s.depth + 1, 0, false, s.inClass))
  }

  function ScanChar(s: Scan, c: char): Option<Scan> {
    if !s.inClass && IsGlobSeparator(c) then FinishComponent(s)
    else
      Some(Scan(s.depth, s.componentLen + 1,
                if s.componentLen == 0 then c == '*'
                else if s.componentLen == 1 then s.recursive && c == '*'
                else false,
                if c == '[' && !s.inClass then true else if c == ']' && s.inClass then false else s.inClass))
  }

  function ScanText(s: Scan, text: string): Option<Scan>
    decreases |text|
  {
    if text == [] then Some(s)
    else
      match ScanChar(s, text[0])
      case None => None
      case Some(next) => ScanText(next, text[1..])
  }

  /** The depth counted when the rest of a pattern is scanned from here; `None` for no bound. */
  function DepthFrom(s: Scan, rest: string): Option<nat> {
    match ScanText(s, rest)
    case None => None
    case Some(end) =>
      match FinishComponent(end)
      case None => None
      case Some(last) => Some(last.depth)
  }

  method PatternTraversalMaxDepth(pattern: string) returns (r: Option<nat>)
    ensures r == DepthFrom(START, pattern)
  {
    var depth: nat, componentLen: nat, recursive, inClass := 0, 0, false, false;
    for i := 0 to |pattern|
      invariant DepthFrom(START, pattern) == DepthFrom(Scan(depth, componentLen, recursive, inClass), pattern[i..])
    {
      var ch := pattern[i];
      assert pattern[i..][0] == ch && pattern[i..][1..] == pattern[i + 1..];
      if !inClass && IsGlobSeparator(ch) {
        var finished := FinishComponent(Scan(depth, componentLen, recursive, inClass));
        if finished.None? { return None; }
        depth, componentLen, recursive := finished.value.depth, finished.value.componentLen, finished.value.recursive;
        continue;
      }
      if ch == '[' && !inClass { inClass := true; } else if ch == ']' && inClass { inClass := false; }
      recursive := if componentLen == 0 then ch == '*' else if componentLen == 1 then recursive && ch == '*' else false;
      componentLen := componentLen + 1;
    }
    assert pattern[|pattern|..] == [];
    var finished := FinishComponent(Scan(depth, componentLen, recursive, inClass));
    r := if finished.None? then None else Some(finished.value.depth);
  }

  /** The depth that a walk for all the patterns needs: unbounded as soon as one of them is. */
  function MaxDepth(patterns: seq<string>): Option<nat> {
    if patterns == [] then Some(0)
    else
      match (MaxDepth(patterns[..|patterns| - 1]), DepthFrom(START, patterns[|patterns| - 1]))
      case (Some(a), Some(b)) => Some(if a < b then b else a)
      case _ => None
  }

  method GlobTraversalMaxDepth(patterns: seq<string>) returns (r: Option<nat>)
    ensures r == MaxDepth(patterns)
  {
    var maxDepth := 0;
    for i := 0 to |patterns|
      invariant MaxDepth(patterns[..i]) == Some(maxDepth)
    {
      assert patterns[..i + 1][..i] == patterns[..i];
      var depth := PatternTraversalMaxDepth(patterns[i]);
      if depth.None? {
        Unbounded(patterns, i);
        return None;
      }
      if maxDepth < depth.value { maxDepth := depth.value; }
    }
    assert patterns[..|patterns|] == patterns;
    r := Some(maxDepth);
  }

  lemma {:induction false} Unbounded(patterns: seq<string>, i: nat)
    requires i < |patterns| && DepthFrom(START, patterns[i]).None?
    ensures MaxDepth(patterns).None?
  {
    hide DepthFrom;
    if i < |patterns| - 1 { Unbounded(patterns[..|patterns| - 1], i); }
  }

  lemma {:induction false} MaxDepthIsMax(patterns: seq<string>, i: nat)
    requires i < |patterns| && MaxDepth(patterns).Some?
    ensures DepthFrom(START, patterns[i]).Some? && DepthFrom(START, patterns[i]).value <= MaxDepth(patterns).value
  {
    hide DepthFrom;
    if i < |patterns| - 1 { MaxDepthIsMax(patterns[..|patterns| - 1], i); }
  }

  // --- The components of a path ---------------------------------------------

  function Separators(w: string, p: Platform): nat
    decreases |w|
  {
    if w == [] then 0 else (if IsSep(w[0], p) then 1 else 0) + Separators(w[1..], p)
  }

  /** What is left of a path whose components are not empty; `started` when the current one has begun. */
  predicate ProperRest(w: string, started: bool, p: Platform)
    decreases |w|
  {
    if w == [] then started
    else if IsSep(w[0], p) then started && ProperRest(w[1..], false, p)
    else ProperRest(w[1..], true, p)
  }

  predicate ProperPath(w: string, p: Platform) { ProperRest(w, false, p) }

  function ComponentCount(w: string, p: Platform): nat { 1 + Separators(w, p) }

  // --- The scan counts the components of every match ------------------------

  /** The components counted once the current one is finished. */
  function Counted(s: Scan): nat { s.depth + if s.componentLen > 0 then 1 else 0 }

  lemma {:induction false} ScanConcat(s: Scan, a: string, b: string)
    ensures ScanText(s, a + b) == match ScanText(s, a) { case None => None case Some(t) => ScanText(t, b) }
    decreases |a|
  {
    hide ScanChar;
    if a == [] {
      assert a + b == b;
    } else {
      assert (a + b)[1..] == a[1..] + b && (a + b)[0] == a[0];
      if ScanChar(s, a[0]).Some? { ScanConcat(ScanChar(s, a[0]).value, a[1..], b); }
    }
  }

  lemma {:induction false} ScanGrows(s: Scan, text: string)
    ensures ScanText(s, text).Some? ==>
      s.depth <= ScanText(s, text).value.depth && Counted(s) <= Counted(ScanText(s, text).value)
    decreases |text|
  {
    if text != [] && ScanChar(s, text[0]).Some? { ScanGrows(ScanChar(s, text[0]).value, text[1..]); }
  }

  /** The token at the front, as the scan sees it. */
  function AfterToken(s: Scan, r: string, width: nat): Option<Scan>
    requires width <= |r|
  {
    ScanText(s, r[..width])
  }

  lemma DepthAfterToken(s: Scan, r: string, width: nat)
    requires width <= |r| && DepthFrom(s, r).Some?
    ensures AfterToken(s, r, width).Some? && DepthFrom(AfterToken(s, r, width).value, r[width..]) == DepthFrom(s, r)
  {
    hide FinishComponent;
    assert r == r[..width] + r[width..];
    ScanConcat(s, r[..width], r[width..]);
  }

  lemma FinalDepth(s: Scan)
    requires DepthFrom(s, []).Some?
    ensures DepthFrom(s, []).value == Counted(s)
  {
  }

  lemma {:induction false} ScanLast(s: Scan, text: string)
    requires text != [] && ScanText(s, text).Some?
    ensures ScanText(s, text[..|text| - 1]).Some?
    ensures ScanText(s, text) == ScanChar(ScanText(s, text[..|text| - 1]).value, text[|text| - 1])
  {
    hide ScanChar;
    var n := |text| - 1;
    assert text == text[..n] + [text[n]];
    ScanConcat(s, text[..n], [text[n]]);
    assert [text[n]][1..] == [];
  }

  /** Once a class is passed the scan is outside any class, within a component. */
  lemma ClassScanned(s: Scan, text: string)
    requires !s.inClass && text != [] && text[0] == '[' && text[|text| - 1] == ']' && |text| > 1
    requires ScanText(s, text).Some?
    ensures var e := ScanText(s, text).value;
      !e.inClass && e.componentLen > 0 && s.depth <= e.depth && s.depth + 1 <= Counted(e)
  {
    ScanLast(s, text);
    var first := ScanChar(s, '[').value;
    assert Counted(first) == s.depth + 1;
    ScanGrows(first, text[1..]);
    ScanGrows(s, text);
  }

  /** What a token does to the scan. */
  lemma TokenScanned(s: Scan, r: string, starts: bool, p: Platform)
    requires r != [] && NextToken(r, starts, p).Some? && !s.inClass && (starts ==> s.componentLen == 0)
    requires DepthFrom(s, r).Some?
    ensures var (token, width) := NextToken(r, starts, p).value;
      var e := AfterToken(s, r, width);
      && e.Some? && !e.value.inClass && token != AnyRecursive
      && DepthFrom(e.value, r[width..]) == DepthFrom(s, r)
      && (StartsAfter(r, width, p) ==> e.value.componentLen == 0)
      && s.depth <= e.value.depth && Counted(s) <= Counted(e.value)
      && (token == Literal(r[0]) && IsGlobSeparator(r[0]) ==>
        e.value.componentLen == 0 && Counted(e.value) == Counted(s))
      && (!(token == Literal(r[0]) && IsGlobSeparator(r[0])) ==>
        e.value.componentLen > 0 && s.depth + 1 <= Counted(e.value))
  {
    var (token, width) := NextToken(r, starts, p).value;
    DepthAfterToken(s, r, width);
    ScanGrows(s, r[..width]);
    if r[0] == '[' {
      ClassScanned(s, r[..width]);
    } else if r[0] == '*' && width > 1 {
      NoDoubleStar(s, r, starts, p);
    } else {
      assert r[..width] == [r[0]] && [r[0]][1..] == [];
    }
  }

  /** A `**` token leaves no bound. */
  lemma NoDoubleStar(s: Scan, r: string, starts: bool, p: Platform)
    requires r != [] && r[0] == '*' && NextToken(r, starts, p).Some? && NextToken(r, starts, p).value.1 > 1
    requires !s.inClass && s.componentLen == 0
    ensures DepthFrom(s, r).None?
  {
    assert r[1] == '*';
    var two := Scan(s.depth, 2, true, false);
    assert r == ['*'] + ['*'] + r[2..];
    assert r[1..][1..] == r[2..];
    assert ScanText(s, r) == ScanText(two, r[2..]);
  }

  /** Whether what has begun so far is counted: `begun` components of the path have begun. */
  predicate Paid(s: Scan, begun: nat, started: bool) { if started then begun <= Counted(s) else begun <= s.depth }

  lemma {:induction false} DepthBoundsMatch(r: string, starts: bool, s: Scan, w: string, follows: bool, begun: nat,
                                            started: bool, p: Platform)
    requires Compile(r, starts, p).Some? && Matches(Compile(r, starts, p).value, w, follows, p)
    requires p.windows || '\\' !in r
    requires DepthFrom(s, r).Some? && !s.inClass && (starts ==> s.componentLen == 0)
    requires ProperRest(w, started, p) && Paid(s, begun, started)
    ensures begun + (if started then 0 else 1) + Separators(w, p) <= DepthFrom(s, r).value
    decreases |r|, |w|, 1
  {
    hide TakesOne, Takes, NextToken, Matches, MatchesDeeper, Compile, StartsAfter, ScanText, DepthFrom;
    if r == [] {
      NothingLeft(w, follows, starts, p);
      FinalDepth(s);
    } else {
      CompileHead(r, starts, p);
      MatchesHead(Compile(r, starts, p).value, w, follows, p);
      TokenScanned(s, r, starts, p);
      var (token, width) := NextToken(r, starts, p).value;
      var e, rest := AfterToken(s, r, width).value, r[width..];
      TokenEnd(r, starts, p);
      assert p.windows || '\\' !in rest;
      assert r[0] in r;
      if token == AnySequence {
        SplitHead(Compile(r, starts, p).value);
        StarBounds(rest, StartsAfter(r, width, p), e, r, starts, w, follows, begun, started, p);
      } else {
        TakenChar(token, w[0], follows, p);
        DepthBoundsMatch(rest, StartsAfter(r, width, p), e, w[1..], IsSep(w[0], p),
                         if started || IsSep(w[0], p) then begun else begun + 1, !IsSep(w[0], p), p);
      }
    }
  }

  lemma SplitHead(tokens: seq<Token>)
    requires tokens != []
    ensures tokens == [tokens[0]] + tokens[1..]
  {
  }

  /** A separator of the path is matched by a separator of the pattern alone. */
  lemma TakenChar(t: Token, c: char, follows: bool, p: Platform)
    requires TakesOne(t, c, follows, p)
    ensures IsSep(c, p) <==> t.Literal? && IsSep(t.c, p)
  {
  }

  lemma {:induction false} StarBounds(rest: string, restStarts: bool, e: Scan, r: string, starts: bool, w: string,
                                      follows: bool,
                                      begun: nat, started: bool, p: Platform)
    requires Compile(rest, restStarts, p).Some? && |rest| < |r|
    requires Matches([AnySequence] + Compile(rest, restStarts, p).value, w, follows, p)
    requires p.windows || '\\' !in rest
    requires DepthFrom(e, rest).Some? && !e.inClass && (restStarts ==> e.componentLen == 0) && e.componentLen > 0
    requires ProperRest(w, started, p) && Paid(e, begun, started)
    ensures begun + (if started then 0 else 1) + Separators(w, p) <= DepthFrom(e, rest).value
    decreases |rest|, |w|, 2
  {
    hide TakesOne, NextToken, Matches, MatchesDeeper, Compile, StartsAfter, ScanText, DepthFrom;
    var tokens := [AnySequence] + Compile(rest, restStarts, p).value;
    assert tokens[1..] == Compile(rest, restStarts, p).value;
    MatchesHead(tokens, w, follows, p);
    if Matches(tokens[1..], w, follows, p) {
      DepthBoundsMatch(rest, restStarts, e, w, follows, begun, started, p);
    } else {
      StarBounds(rest, restStarts, e, r, starts, w[1..], false, if started then begun else begun + 1, true, p);
    }
  }

  /** A path that matches a pattern of bounded depth has no more components than the bound. */
  lemma DepthBoundHolds(pattern: string, w: string, p: Platform)
    requires PatternMatches(pattern, w, p) && ProperPath(w, p)
    requires p.windows || '\\' !in pattern
    requires DepthFrom(START, pattern).Some?
    ensures ComponentCount(w, p) <= DepthFrom(START, pattern).value
  {
    DepthBoundsMatch(pattern, true, START, w, true, 0, false, p);
  }

  // --- Where the bound fails ------------------------------------------------

  /** The components of a pattern as the matcher sees them. */
  function SeparatorTokens(tokens: seq<Token>, p: Platform): nat {
    if tokens == [] then 0
    else (if tokens[0].Literal? && IsSep(tokens[0].c, p) then 1 else 0) + SeparatorTokens(tokens[1..], p)
  }

  lemma {:induction false} BoundedIsNotRecursive(r: string, starts: bool, s: Scan, p: Platform)
    requires Compile(r, starts, p).Some? && DepthFrom(s, r).Some? && !s.inClass && (starts ==> s.componentLen == 0)
    ensures AnyRecursive !in Compile(r, starts, p).value
    decreases |r|
  {
    hide NextToken, ScanText, DepthFrom, StartsAfter, AfterToken;
    if r != [] {
      CompileHead(r, starts, p);
      TokenScanned(s, r, starts, p);
      var (token, width) := NextToken(r, starts, p).value;
      BoundedIsNotRecursive(r[width..], StartsAfter(r, width, p), AfterToken(s, r, width).value, p);
      SplitHead(Compile(r, starts, p).value);
      hide Compile;
    }
  }

  lemma {:induction false} MatchedSeparators(tokens: seq<Token>, w: string, follows: bool, p: Platform)
    requires AnyRecursive !in tokens && Matches(tokens, w, follows, p)
    ensures Separators(w, p) == SeparatorTokens(tokens, p)
    decreases |tokens|, |w|
  {
    hide Matches, MatchesDeeper, TakesOne, Takes;
    if tokens == [] {
      EmptyMatch(w, follows, p);
    } else {
      MatchesHead(tokens, w, follows, p);
      assert tokens[0] in tokens;
      if tokens[0] == AnySequence {
        if Matches(tokens[1..], w, follows, p) {
          MatchedSeparators(tokens[1..], w, follows, p);
        } else {
          NotTaken(w[0], follows, p);
          MatchedSeparators(tokens, w[1..], false, p);
        }
      } else {
        TakenChar(tokens[0], w[0], follows, p);
        MatchedSeparators(tokens[1..], w[1..], IsSep(w[0], p), p);
      }
    }
  }

  lemma EmptyMatch(w: string, follows: bool, p: Platform)
    requires Matches([], w, follows, p)
    ensures w == []
  {
  }

  lemma NotTaken(c: char, follows: bool, p: Platform)
    requires Takes(c, follows, p)
    ensures !IsSep(c, p)
  {
  }

  /**
    The bound is right for a match exactly when it is at least the number of
    components of the pattern on this platform. The scan counts what lies between
    slashes and backslashes, the matcher what lies between separators.
   */
  lemma DepthBoundExactly(pattern: string, w: string, p: Platform)
    requires PatternMatches(pattern, w, p) && DepthFrom(START, pattern).Some?
    ensures ComponentCount(w, p) <= DepthFrom(START, pattern).value <==>
            1 + SeparatorTokens(Compile(pattern, true, p).value, p) <= DepthFrom(START, pattern).value
  {
    MatchedComponents(pattern, w, p);
  }

  /** A match of a bounded pattern has as many components as the pattern. */
  lemma MatchedComponents(pattern: string, w: string, p: Platform)
    requires PatternMatches(pattern, w, p) && DepthFrom(START, pattern).Some?
    ensures ComponentCount(w, p) == 1 + SeparatorTokens(Compile(pattern, true, p).value, p)
  {
    BoundedIsNotRecursive(pattern, true, START, p);
    MatchedSeparators(Compile(pattern, true, p).value, w, true, p);
  }

  /** A pattern of one backslash, where that is an ordinary character: it matches a file the walk never reaches. */
  lemma BareBackslashIsLost(leadingDot: bool)
    ensures var p := Platform(false, leadingDot);
      PatternMatches("\\", "\\", p) && ProperPath("\\", p) && DepthFrom(START, "\\") == Some(0)
        && ComponentCount("\\", p) == 1
  {
    var p := Platform(false, leadingDot);
    assert "\\"[1..] == [];
    assert NextToken("\\", true, p) == Some((Literal('\\'), 1));
    assert Compile("\\", true, p) == Some([Literal('\\')] + []);
    assert ([Literal('\\')] + [])[1..] == [];
  }
}
