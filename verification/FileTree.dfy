/**
  The file system seen by the caches: a tree of directories and regular files
  with coarse timestamps, changed by writers the caches do not control.

  Timestamps are multiples of a granule `g`; everything below asks only that
  the granule is no longer than `SLACK`, the racy-timestamp slack shared by the
  scope cache and the semantic index. Times are nanoseconds of a clock that
  never runs backwards. There are no symbolic links and no hand-set times, and
  a rename is a removal followed by a creation.
 */
module FileTree {

  /** Two seconds: the age at which a timestamp is trusted. */
  const SLACK: nat := 2_000_000_000

  type Name = string
  type Path = seq<Name>

  /** `changed` is the time of the last change of any kind; a change of mode moves it alone. */
  datatype Node =
    | Dir(modified: nat, changed: nat)
    | File(content: string, modified: nat, changed: nat)

  datatype Tree = Tree(clock: nat, nodes: map<Path, Node>)

  datatype Kind = Missing | RegularFile | Directory

  function KindOf(t: Tree, p: Path): Kind {
    if p !in t.nodes then Missing
    else if t.nodes[p].Dir? then Directory
    else RegularFile
  }

  function Parent(p: Path): Path
    requires p != []
  {
    p[..|p| - 1]
  }

  function Coarse(now: nat, g: nat): nat
    requires 0 < g
  {
    now - now % g
  }

  ghost predicate WellFormed(t: Tree) {
    forall p :: p in t.nodes && p != [] ==> KindOf(t, Parent(p)) == Directory
  }

  /** One atomic action of some writer. */
  datatype Action =
    | Wait(ticks: nat)
    | MakeDir(path: Path)
    | MakeFile(path: Path, content: string)
    | Remove(path: Path)
    | Write(path: Path, content: string)
    | ChangeMode(path: Path)

  ghost predicate Enabled(t: Tree, a: Action) {
    match a
    case Wait(_) => true
    case MakeDir(p) => p != [] && p !in t.nodes && KindOf(t, Parent(p)) == Directory
    case MakeFile(p, _) => p != [] && p !in t.nodes && KindOf(t, Parent(p)) == Directory
    case Remove(p) =>
      && p != [] && p in t.nodes && KindOf(t, Parent(p)) == Directory
      && forall q :: q in t.nodes && q != [] ==> Parent(q) != p
    case Write(p, _) => KindOf(t, p) == RegularFile
    case ChangeMode(p) => p in t.nodes
  }

  /** The nodes after `p` was made or removed: its parent directory is stamped anew. */
  function Restamped(nodes: map<Path, Node>, p: Path, now: nat): map<Path, Node>
    requires p != []
  {
    nodes[Parent(p) := Dir(now, now)]
  }

  function Apply(t: Tree, a: Action, g: nat): Tree
    requires 0 < g && Enabled(t, a)
  {
    var now := Coarse(t.clock, g);
    match a
    case Wait(ticks) => t.(clock := t.clock + ticks)
    case MakeDir(p) => t.(nodes := Restamped(t.nodes[p := Dir(now, now)], p, now))
    case MakeFile(p, content) => t.(nodes := Restamped(t.nodes[p := File(content, now, now)], p, now))
    case Remove(p) => t.(nodes := Restamped(t.nodes - {p}, p, now))
    case Write(p, content) => t.(nodes := t.nodes[p := File(content, now, now)])
    case ChangeMode(p) =>
      t.(nodes := t.nodes[p := match t.nodes[p]
                               case Dir(m, _) => Dir(m, now)
                               case File(c, m, _) => File(c, m, now)])
  }

  ghost predicate Next(t: Tree, u: Tree, g: nat)
    requires 0 < g
  {
    exists a: Action :: Enabled(t, a) && u == Apply(t, a, g)
  }

  /** The states of the tree over a run of arbitrary writers. */
  ghost predicate History(h: seq<Tree>, g: nat) {
    && 0 < g <= SLACK
    && 0 < |h|
    && WellFormed(h[0])
    && forall i :: 0 <= i < |h| - 1 ==> Next(h[i], h[i + 1], g)
  }

  /** The two trees show the same direct children of `d`, of the same kinds. */
  ghost predicate SameListing(t: Tree, u: Tree, d: Path) {
    forall n: Name :: KindOf(t, d + [n]) == KindOf(u, d + [n])
  }

  /** Equal up to the time of the last change of mode. */
  predicate SameData(a: Node, b: Node) {
    match (a, b)
    case (Dir(m, _), Dir(n, _)) => m == n
    case (File(c, m, _), File(d, n, _)) => c == d && m == n
    case _ => false
  }

  lemma ApplyWellFormed(t: Tree, a: Action, g: nat)
    requires 0 < g && WellFormed(t) && Enabled(t, a)
    ensures WellFormed(Apply(t, a, g))
  {
  }

  lemma {:induction false} HistoryWellFormed(h: seq<Tree>, g: nat, i: nat)
    requires History(h, g) && i < |h|
    ensures WellFormed(h[i])
  {
    if i > 0 {
      HistoryWellFormed(h, g, i - 1);
      assert Next(h[i - 1], h[i], g);
      var a: Action :| Enabled(h[i - 1], a) && h[i] == Apply(h[i - 1], a, g);
      ApplyWellFormed(h[i - 1], a, g);
    }
  }

  lemma {:induction false} ClockMonotone(h: seq<Tree>, g: nat, i: nat, j: nat)
    requires History(h, g) && i <= j < |h|
    ensures h[i].clock <= h[j].clock
  {
    if i < j {
      ClockMonotone(h, g, i, j - 1);
      assert Next(h[j - 1], h[j], g);
    }
  }

  lemma {:induction false} TimesMonotone(g: nat, i: nat, j: nat)
    requires i <= j
    ensures g * i <= g * j
  {
    if i < j {
      TimesMonotone(g, i, j - 1);
      assert g * j == g * (j - 1) + g;
    }
  }

  lemma QuotientMonotone(a: nat, b: nat, g: nat)
    requires 0 < g && a <= b
    ensures a / g <= b / g
  {
    var i, j := a / g, b / g;
    assert a == g * i + a % g && b == g * j + b % g;
    assert g * (j + 1) == g * j + g;
    if j + 1 <= i { TimesMonotone(g, j + 1, i); }
  }

  lemma CoarseMonotone(a: nat, b: nat, g: nat)
    requires 0 < g && a <= b
    ensures Coarse(a, g) <= Coarse(b, g)
  {
    QuotientMonotone(a, b, g);
    TimesMonotone(g, a / g, b / g);
    assert Coarse(a, g) == g * (a / g) && Coarse(b, g) == g * (b / g);
  }

  /** A timestamp that meets the slack rule lies in an earlier granule than the clock. */
  lemma SlackPassesGranule(modified: nat, now: nat, g: nat)
    requires 0 < g <= SLACK && modified + SLACK <= now
    ensures modified < Coarse(now, g)
  {
  }

  /** An action that leaves `p` with a timestamp of an earlier granule did not touch it or its listing. */
  lemma StepQuiet(t: Tree, a: Action, g: nat, p: Path)
    requires 0 < g && Enabled(t, a)
    requires p in Apply(t, a, g).nodes && Apply(t, a, g).nodes[p].modified < Coarse(t.clock, g)
    ensures p in t.nodes && SameData(t.nodes[p], Apply(t, a, g).nodes[p])
    ensures SameListing(t, Apply(t, a, g), p)
  {
    var u := Apply(t, a, g);
    forall n: Name
      ensures KindOf(t, p + [n]) == KindOf(u, p + [n])
    {
      assert Parent(p + [n]) == p;
    }
  }

  /**
    The racy-timestamp rule: a node whose timestamp at step `n` is of an earlier
    granule than the clock at step `f` was not touched in between, so every
    observation made between `f` and `n` saw the same data and the same listing.
   */
  lemma {:induction false} QuietSince(h: seq<Tree>, g: nat, p: Path, f: nat, j: nat, n: nat)
    requires History(h, g) && f <= j <= n < |h|
    requires p in h[n].nodes && h[n].nodes[p].modified < Coarse(h[f].clock, g)
    ensures p in h[j].nodes && SameData(h[j].nodes[p], h[n].nodes[p])
    ensures SameListing(h[j], h[n], p)
    decreases n - j
  {
    if j < n {
      QuietSince(h, g, p, f, j + 1, n);
      assert Next(h[j], h[j + 1], g);
      var a: Action :| Enabled(h[j], a) && h[j + 1] == Apply(h[j], a, g);
      ClockMonotone(h, g, f, j);
      CoarseMonotone(h[f].clock, h[j].clock, g);
      StepQuiet(h[j], a, g, p);
    }
  }
}
