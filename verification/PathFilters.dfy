/**
  The part of the workspace a search or an indexing run is about, and its three
  encodings: the test on a path, the SQL range of the LanceDB store and the
  prefix list of the Qdrant store.

  Strings are the bytes of their UTF-8 form, one character per byte, so the
  order of characters is the byte order SQL compares by and `|s|` is the length
  in bytes.
 */
module PathFilters {
  datatype PathFilter = Workspace | OneFile(path: string) | Directory(path: string) {
    predicate Contains(p: string) {
      match this
      case Workspace => true
      case OneFile(f) => p == f
      case Directory(d) => p == d || (d < p && p[|d|] == '/')
    }
  }

  // --- SQL conditions -------------------------------------------------------

  /** Byte order. */
  predicate Before(a: string, b: string) {
    b != [] && (a == [] || a[0] < b[0] || (a[0] == b[0] && Before(a[1..], b[1..])))
  }

  datatype Condition =
    | Equal(column: string, value: string)
    | AtLeast(column: string, value: string)
    | Below(column: string, value: string)
    | OneOf(column: string, values: seq<string>)
    | Both(left: Condition, right: Condition)
    | Either(left: Condition, right: Condition)
    | Group(inner: Condition)

  /** A stored chunk, as far as the filters see it. */
  datatype Row = Row(root: string, path: string, language: string, chunkId: string)

  function Column(row: Row, column: string): string {
    if column == "root" then row.root
    else if column == "path" then row.path
    else if column == "language" then row.language
    else row.chunkId
  }

  predicate Selects(c: Condition, row: Row) {
    match c
    case Equal(k, v) => Column(row, k) == v
    case AtLeast(k, v) => !Before(Column(row, k), v)
    case Below(k, v) => Before(Column(row, k), v)
    case OneOf(k, vs) => Column(row, k) in vs
    case Both(a, b) => Selects(a, row) && Selects(b, row)
    case Either(a, b) => Selects(a, row) || Selects(b, row)
    case Group(a) => Selects(a, row)
  }

  /** `None` for the whole workspace: no condition at all. */
  function DirectoryCondition(d: string): Condition {
    Group(Either(Equal("path", d), Group(Both(AtLeast("path", d + "/"), Below("path", d + "0")))))
  }

  predicate SqlKeeps(f: PathFilter, row: Row) {
    match f
    case Workspace => true
    case OneFile(p) => Selects(Equal("path", p), row)
    case Directory(d) => Selects(DirectoryCondition(d), row)
  }

  /** A string between `d/` and `d0` continues `d` with a slash, and only such strings do. */
  lemma {:induction false} RangeIsUnder(d: string, p: string)
    ensures !Before(p, d + "/") && Before(p, d + "0") <==> d < p && p[|d|] == '/'
  {
    if d == [] {
      assert d + "/" == "/" && d + "0" == "0";
      if p != [] {
        assert !Before(p[1..], "/"[1..]) && !Before(p[1..], "0"[1..]);
        assert p[0] < '0' <==> p[0] as int <= '/' as int;
      }
    } else if p != [] && p[0] == d[0] {
      assert (d + "/")[1..] == d[1..] + "/" && (d + "0")[1..] == d[1..] + "0";
      RangeIsUnder(d[1..], p[1..]);
      assert d <= p <==> d[1..] <= p[1..] by {
        assert d == [d[0]] + d[1..] && p == [p[0]] + p[1..];
        if d[1..] <= p[1..] { assert p[1..] == d[1..] + p[1..][|d| - 1..]; assert p == d + p[1..][|d| - 1..]; }
      }
    } else {
      assert (d + "/")[0] == d[0] == (d + "0")[0];
      assert p != [] ==> p[0] != d[0] && !(d <= p);
    }
  }

  /** The SQL range keeps exactly the rows whose path the filter contains. */
  lemma SqlAgrees(f: PathFilter, row: Row)
    ensures SqlKeeps(f, row) <==> f.Contains(row.path)
  {
    if f.Directory? {
      var d, p := f.path, row.path;
      RangeIsUnder(d, p);
      var range := Both(AtLeast("path", d + "/"), Below("path", d + "0"));
      assert Selects(range, row) <==> !Before(p, d + "/") && Before(p, d + "0");
      assert Selects(Either(Equal("path", d), Group(range)), row) <==> p == d || Selects(range, row);
    }
  }

  // --- Prefix lists ---------------------------------------------------------

  function FindSlash(s: string, i: nat): (r: nat)
    requires i <= |s|
    ensures i <= r <= |s| && '/' !in s[i..r] && (r < |s| ==> s[r] == '/')
    decreases |s| - i
  {
    if i == |s| || s[i] == '/' then i
    else FindSlash(s, i + 1)
  }

  /** Every proper directory prefix of a path, shortest first. */
  method PathPrefixes(path: string) returns (prefixes: seq<string>)
    ensures forall d :: d in prefixes <==> d != "" && d < path && path[|d|] == '/'
    ensures forall i, j :: 0 <= i < j < |prefixes| ==> |prefixes[i]| < |prefixes[j]|
  {
    prefixes := [];
    var offset := 0;
    var end := FindSlash(path, 0);
    while end < |path|
      invariant offset <= end <= |path| && end == FindSlash(path, offset)
      invariant forall d :: d in prefixes <==> d != "" && d < path && path[|d|] == '/' && |d| < offset
      invariant forall i, j :: 0 <= i < j < |prefixes| ==> |prefixes[i]| < |prefixes[j]|
      decreases |path| - offset
    {
      ghost var before := prefixes;
      if end > 0 { prefixes := prefixes + [path[..end]]; }
      forall d
        ensures d in prefixes <==> d != "" && d < path && path[|d|] == '/' && |d| < end + 1
      {
        assert d in prefixes <==> d in before || (end > 0 && d == path[..end]);
        if d < path && offset <= |d| < end { assert path[offset..end][|d| - offset] == path[|d|]; }
      }
      offset := end + 1;
      end := FindSlash(path, offset);
    }
    forall d | d < path && offset <= |d|
      ensures path[|d|] != '/'
    {
      assert path[offset..|path|][|d| - offset] == path[|d|];
    }
  }

  /** What the Qdrant filter keeps of a point stored with these prefixes. */
  predicate PrefixKeeps(f: PathFilter, path: string, prefixes: seq<string>) {
    match f
    case Workspace => true
    case OneFile(p) => path == p
    case Directory(d) => d in prefixes
  }

  /**
    The Qdrant filter agrees with the other two except for the directory's own
    path and for the nameless directory, which no prefix list holds.
   */
  lemma PrefixesAgree(f: PathFilter, path: string, prefixes: seq<string>)
    requires forall d :: d in prefixes <==> d != "" && d < path && path[|d|] == '/'
    ensures (PrefixKeeps(f, path, prefixes) <==> f.Contains(path)) <==>
            !(f.Directory? && (path == f.path || (f.path == "" && "" < path && path[0] == '/')))
  {
    if f.Directory? {
      var d := f.path;
      assert d in prefixes <==> d != "" && d < path && path[|d|] == '/';
    }
  }
}
