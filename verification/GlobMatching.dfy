/**
  Glob patterns and their matcher: that of the glob library, with
  `require_literal_separator` set, taken here as the specification.
 */
module GlobMatching {
  import opened Wrappers

  /** `windows`: a backslash separates too. `leadingDot`: a dot that begins a component is matched by a dot alone. */
  datatype Platform = Platform(windows: bool, leadingDot: bool)

  predicate IsSep(c: char, p: Platform) { c == '/' || (p.windows && c == '\\') }

  datatype Token = Literal(c: char) | AnyChar | AnySequence | AnyRecursive | AnyOf(negated: bool, specifiers: string)

  // --- Compiling ------------------------------------------------------------

  function Stars(r: string): (n: nat)
    ensures n <= |r| && forall k :: 0 <= k < n ==> r[k] == '*'
    ensures n < |r| ==> r[n] != '*'
  {
    if r == [] || r[0] != '*' then 0 else 1 + Stars(r[1..])
  }

  /** The place of the first `]` from `i` on. */
  function ClosingBracket(r: string, i: nat): (e: Option<nat>)
    ensures e.Some? ==> i <= e.value < |r| && r[e.value] == ']'
    decreases |r| - i
  {
    if i >= |r| then None else if r[i] == ']' then Some(i) else ClosingBracket(r, i + 1)
  }

  /**
    The token at the front of a pattern and its width; `None` for an invalid pattern. `starts`:
    it begins the pattern, or follows a separator.
   */
  function NextToken(r: string, starts: bool, p: Platform): (t: Option<(Token, nat)>)
    requires r != []
    ensures t.Some? ==> 0 < t.value.1 <= |r|
  {
    if r[0] == '?' then Some((AnyChar, 1))
    else if r[0] == '*' then
      var n := Stars(r);
      if n == 1 then Some((AnySequence, 1))
      else if n > 2 || !starts then None
      else if |r| == 2 then Some((AnyRecursive, 2))
      else if IsSep(r[2], p) then Some((AnyRecursive, 3))
      else None
    else if r[0] == '[' then
      if |r| >= 4 && r[1] == '!' then
        match ClosingBracket(r, 3)
        case None => None
        case Some(e) => Some((AnyOf(true, r[2..e]), e + 1))
      else if |r| >= 3 && r[1] != '!' then
        match ClosingBracket(r, 2)
        case None => None
        case Some(e) => Some((AnyOf(false, r[1..e]), e + 1))
      else None
    else Some((Literal(r[0]), 1))
  }

  function StartsAfter(r: string, width: nat, p: Platform): bool
    requires 0 < width <= |r|
  {
    IsSep(r[width - 1], p)
  }

  function Compile(r: string, starts: bool, p: Platform): Option<seq<Token>>
    decreases |r|
  {
    if r == [] then Some([])
    else
      match NextToken(r, starts, p)
      case None => None
      case Some((token, width)) =>
        match Compile(r[width..], StartsAfter(r, width, p), p)
        case None => None
        case Some(rest) => Some([token] + rest)
  }

  // --- Matching -------------------------------------------------------------

  /** Single characters and ranges. */
  predicate InSpecifiers(s: string, c: char)
    decreases |s|
  {
    s != [] &&
    if |s| >= 3 && s[1] == '-' then s[0] <= c <= s[2] || InSpecifiers(s[3..], c)
    else s[0] == c || InSpecifiers(s[1..], c)
  }

  /** Whether a wildcard may take this character here. */
  predicate Takes(c: char, follows: bool, p: Platform) { !IsSep(c, p) && !(follows && p.leadingDot && c == '.') }

  predicate TakesOne(t: Token, c: char, follows: bool, p: Platform) {
    match t
    case Literal(l) => c == l || (IsSep(c, p) && IsSep(l, p))
    case AnyChar => Takes(c, follows, p)
    case AnyOf(negated, specifiers) => Takes(c, follows, p) && InSpecifiers(specifiers, c) != negated
    case _ => false
  }

  /** `follows`: the path starts here, or a separator came before. */
  predicate Matches(tokens: seq<Token>, w: string, follows: bool, p: Platform)
    decreases |tokens|, |w|, 1
  {
    if tokens == [] then w == []
    else
      match tokens[0]
      case AnySequence =>
        || Matches(tokens[1..], w, follows, p)
        || (w != [] && Takes(w[0], follows, p) && Matches(tokens, w[1..], false, p))
      case AnyRecursive => Matches(tokens[1..], w, follows, p) || MatchesDeeper(tokens[1..], w, follows, p)
      case t => w != [] && TakesOne(t, w[0], follows, p) && Matches(tokens[1..], w[1..], IsSep(w[0], p), p)
  }

  /** After any number of whole components, or at the very end. */
  predicate MatchesDeeper(rest: seq<Token>, w: string, follows: bool, p: Platform)
    decreases |rest| + 1, |w|, 0
  {
    if w == [] then Matches(rest, [], follows, p)
    else
      && !(follows && p.leadingDot && w[0] == '.')
      && ((IsSep(w[0], p) && Matches(rest, w[1..], true, p)) || MatchesDeeper(rest, w[1..], IsSep(w[0], p), p))
  }

  /** A path matches a pattern, which must be valid. */
  predicate PatternMatches(pattern: string, w: string, p: Platform) {
    match Compile(pattern, true, p)
    case None => false
    case Some(tokens) => Matches(tokens, w, true, p)
  }
}
