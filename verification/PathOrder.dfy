/** Paths in the order of an ordered map: component by component, each by its characters. */
module PathOrder {
  import opened FileTree

  predicate NameLess(a: Name, b: Name) {
    b != [] && (a == [] || a[0] < b[0] || (a[0] == b[0] && NameLess(a[1..], b[1..])))
  }

  predicate Less(p: Path, q: Path) {
    q != [] && (p == [] || NameLess(p[0], q[0]) || (p[0] == q[0] && Less(p[1..], q[1..])))
  }

  lemma {:induction false} NameOrder(a: Name, b: Name)
    ensures !NameLess(a, a)
    ensures a == b || NameLess(a, b) || NameLess(b, a)
    ensures !(NameLess(a, b) && NameLess(b, a))
  {
    if a != [] {
      NameOrder(a[1..], if b == [] then [] else b[1..]);
      if b != [] && a[0] == b[0] && a[1..] == b[1..] {
        assert a == [a[0]] + a[1..] == b;
      }
    }
  }

  lemma {:induction false} NameTransitive(a: Name, b: Name, c: Name)
    requires NameLess(a, b) && NameLess(b, c)
    ensures NameLess(a, c)
  {
    if a != [] && a[0] == b[0] == c[0] {
      NameTransitive(a[1..], b[1..], c[1..]);
    }
  }

  lemma {:induction false} PathOrdered(p: Path, q: Path)
    ensures !Less(p, p)
    ensures p == q || Less(p, q) || Less(q, p)
    ensures !(Less(p, q) && Less(q, p))
  {
    if p != [] {
      NameOrder(p[0], if q == [] then [] else q[0]);
      PathOrdered(p[1..], if q == [] then [] else q[1..]);
      if q != [] && p[0] == q[0] && p[1..] == q[1..] {
        assert p == [p[0]] + p[1..] == q;
      }
    }
  }

  lemma {:induction false} PathTransitive(p: Path, q: Path, r: Path)
    requires Less(p, q) && Less(q, r)
    ensures Less(p, r)
  {
    if p != [] {
      if NameLess(p[0], q[0]) && NameLess(q[0], r[0]) {
        NameTransitive(p[0], q[0], r[0]);
      } else if p[0] == q[0] == r[0] {
        PathTransitive(p[1..], q[1..], r[1..]);
      }
    }
  }

  /** Strictly ascending, as the keys of an ordered map are read off. */
  ghost predicate Ascending(ps: seq<Path>) {
    forall i, j :: 0 <= i < j < |ps| ==> Less(ps[i], ps[j])
  }

  predicate IsLeast(p: Path, s: set<Path>) {
    p in s && forall q :: q in s && q != p ==> Less(p, q)
  }

  lemma {:induction false} LeastExists(s: set<Path>)
    requires s != {}
    ensures exists p :: IsLeast(p, s)
  {
    var x :| x in s;
    if s == {x} {
      assert IsLeast(x, s);
    } else {
      assert s == {x} + (s - {x});
      LeastExists(s - {x});
      var y :| IsLeast(y, s - {x});
      PathOrdered(x, y);
      var p := if Less(x, y) then x else y;
      forall q | q in s && q != p
        ensures Less(p, q)
      {
        if q != x && q != y && p == x { PathTransitive(x, y, q); }
      }
      assert IsLeast(p, s);
    }
  }

  function Least(s: set<Path>): (p: Path)
    requires s != {}
    ensures IsLeast(p, s)
  {
    LeastExists(s);
    LeastUnique(s);
    var p :| p in s && IsLeast(p, s);
    p
  }

  lemma LeastUnique(s: set<Path>)
    ensures forall p, q :: IsLeast(p, s) && IsLeast(q, s) ==> p == q
  {
    forall p, q | IsLeast(p, s) && IsLeast(q, s)
      ensures p == q
    {
      PathOrdered(p, q);
    }
  }

  /** The elements of a set in ascending order. */
  function InOrder(s: set<Path>): (ps: seq<Path>)
    ensures Ascending(ps)
    ensures forall p :: p in ps <==> p in s
  {
    if s == {} then []
    else
      var p := Least(s);
      [p] + InOrder(s - {p})
  }
}
