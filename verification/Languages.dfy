/** Languages: sets of strings under union and concatenation. */
module Languages {
  import opened Sequences

  type Language = set<string>

  ghost function Then(a: Language, b: Language): Language {
    set x, y | x in a && y in b :: x + y
  }

  lemma InThen(a: Language, b: Language, x: string, y: string)
    requires x in a && y in b
    ensures x + y in Then(a, b)
  {
  }

  lemma ThenSplit(a: Language, b: Language, w: string) returns (x: string, y: string)
    requires w in Then(a, b)
    ensures x in a && y in b && w == x + y
  {
    x, y :| x in a && y in b && w == x + y;
  }

  lemma ThenSingle(x: string, y: string)
    ensures Then({x}, {y}) == {x + y}
  {
    InThen({x}, {y}, x, y);
    assert forall w :: w in Then({x}, {y}) ==> w == x + y;
  }

  lemma NoWord(w: string)
    ensures w + "" == w && "" + w == w
  {
  }

  lemma ThenEmptyWord(a: Language)
    ensures Then(a, {""}) == a
  {
    forall w | w in a
      ensures w in Then(a, {""})
    {
      NoWord(w);
      InThen(a, {""}, w, "");
    }
    forall w | w in Then(a, {""})
      ensures w in a
    {
      var x, y := ThenSplit(a, {""}, w);
      NoWord(x);
    }
  }

  lemma EmptyWordThen(a: Language)
    ensures Then({""}, a) == a
  {
    forall w | w in a
      ensures w in Then({""}, a)
    {
      NoWord(w);
      InThen({""}, a, "", w);
    }
    forall w | w in Then({""}, a)
      ensures w in a
    {
      var x, y := ThenSplit({""}, a, w);
      NoWord(y);
    }
  }

  lemma ThenAssociates(a: Language, b: Language, c: Language)
    ensures Then(Then(a, b), c) == Then(a, Then(b, c))
  {
    forall w | w in Then(Then(a, b), c)
      ensures w in Then(a, Then(b, c))
    {
      var xy, z := ThenSplit(Then(a, b), c, w);
      var x, y := ThenSplit(a, b, xy);
      Join3(x, y, z);
      InThen(b, c, y, z);
      InThen(a, Then(b, c), x, y + z);
    }
    forall w | w in Then(a, Then(b, c))
      ensures w in Then(Then(a, b), c)
    {
      var x, yz := ThenSplit(a, Then(b, c), w);
      var y, z := ThenSplit(b, c, yz);
      Join3(x, y, z);
      InThen(a, b, x, y);
      InThen(Then(a, b), c, x + y, z);
    }
  }

  lemma ThenUnionLeft(a: Language, b: Language, c: Language)
    ensures Then(a + b, c) == Then(a, c) + Then(b, c)
  {
    forall w | w in Then(a + b, c)
      ensures w in Then(a, c) + Then(b, c)
    {
      var x, y := ThenSplit(a + b, c, w);
      if x in a { InThen(a, c, x, y); } else { InThen(b, c, x, y); }
    }
    forall w | w in Then(a, c) + Then(b, c)
      ensures w in Then(a + b, c)
    {
      if w in Then(a, c) {
        var x, y := ThenSplit(a, c, w);
        InThen(a + b, c, x, y);
      } else {
        var x, y := ThenSplit(b, c, w);
        InThen(a + b, c, x, y);
      }
    }
  }

  lemma ThenUnionRight(a: Language, b: Language, c: Language)
    ensures Then(a, b + c) == Then(a, b) + Then(a, c)
  {
    forall w | w in Then(a, b + c)
      ensures w in Then(a, b) + Then(a, c)
    {
      var x, y := ThenSplit(a, b + c, w);
      if y in b { InThen(a, b, x, y); } else { InThen(a, c, x, y); }
    }
    forall w | w in Then(a, b) + Then(a, c)
      ensures w in Then(a, b + c)
    {
      if w in Then(a, b) {
        var x, y := ThenSplit(a, b, w);
        InThen(a, b + c, x, y);
      } else {
        var x, y := ThenSplit(a, c, w);
        InThen(a, b + c, x, y);
      }
    }
  }
}
