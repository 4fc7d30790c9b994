/**
  Expanding braces by rewriting: the first innermost group with a comma is
  replaced by each of its parts in turn, until no pattern holds such a group.
  The rewriting keeps the meaning of the pattern.
 */
module BraceExpansion {
  import opened Wrappers
  import opened Languages
  import opened BraceSyntax

  const MAX_BRACE_ALTERNATIVES := 64
  const MAX_EXPANDED_PATTERNS := 1024

  // --- Meaning in context ---------------------------------------------------

  lemma {:induction false} MeaningConcat(a: seq<Item>, b: seq<Item>)
    ensures Meaning(a + b) == Then(Meaning(a), Meaning(b))
  {
    hide Then, ItemMeaning;
    if b == [] {
      assert a + b == a;
      ThenEmptyWord(Meaning(a));
    } else {
      assert (a + b)[..|a + b| - 1] == a + b[..|b| - 1] && (a + b)[|a + b| - 1] == b[|b| - 1];
      MeaningConcat(a, b[..|b| - 1]);
      ThenAssociates(Meaning(a), Meaning(b[..|b| - 1]), ItemMeaning(b[|b| - 1]));
    }
  }

  lemma MeaningOne(item: Item)
    ensures Meaning([item]) == ItemMeaning(item)
  {
    hide Then, ItemMeaning;
    assert [item][..0] == [];
    EmptyWordThen(ItemMeaning(item));
  }

  lemma GroupMeaning(done: seq<Branch>, current: seq<Item>)
    ensures Meaning([Group(done + [Branch(current)])]) ==
            if done == [] then Then(Then({"{"}, Meaning(current)), {"}"}) else AnyOf(done) + Meaning(current)
  {
    hide Then, Meaning;
    MeaningOne(Group(done + [Branch(current)]));
    assert (done + [Branch(current)])[..|done|] == done;
  }

  lemma AnyOfSnoc(done: seq<Branch>, current: seq<Item>)
    ensures AnyOf(done + [Branch(current)]) == AnyOf(done) + Meaning(current)
  {
    hide Meaning;
    assert (done + [Branch(current)])[..|done|] == done;
  }

  lemma FlatSnoc(done: seq<Branch>, current: seq<Item>)
    ensures Meaning(Flat(done + [Branch(current)])) == Then(Then(Meaning(Flat(done)), Meaning(current)), {","})
  {
    hide Then, Meaning;
    assert (done + [Branch(current)])[..|done|] == done;
    MeaningConcat(Flat(done) + current, [Ch(',')]);
    MeaningConcat(Flat(done), current);
    MeaningOne(Ch(','));
  }

  /** All that the rest of a pattern can see of a frame. */
  ghost predicate SameFrame(f: Frame, g: Frame) {
    && |f.done| == |g.done| && AnyOf(f.done) == AnyOf(g.done) && Meaning(Flat(f.done)) == Meaning(Flat(g.done))
    && Meaning(f.current) == Meaning(g.current)
  }

  /** The frame means what `a` means or what `b` means, and they differ in one place. */
  ghost predicate SumFrame(f: Frame, a: Frame, b: Frame) {
    && |f.done| == |a.done| == |b.done|
    && (|| (&& AnyOf(f.done) == AnyOf(a.done) == AnyOf(b.done)
            && Meaning(Flat(f.done)) == Meaning(Flat(a.done)) == Meaning(Flat(b.done))
            && Meaning(f.current) == Meaning(a.current) + Meaning(b.current))
        || (&& AnyOf(f.done) == AnyOf(a.done) + AnyOf(b.done)
            && Meaning(Flat(f.done)) == Meaning(Flat(a.done)) + Meaning(Flat(b.done))
            && Meaning(f.current) == Meaning(a.current) == Meaning(b.current)))
  }

  ghost predicate SameStack(s: seq<Frame>, t: seq<Frame>) {
    |s| == |t| && forall k :: 0 <= k < |s| ==> SameFrame(s[k], t[k])
  }

  ghost predicate SumStack(s: seq<Frame>, a: seq<Frame>, b: seq<Frame>) {
    && |s| == |a| == |b| && s != []
    && var n := |s| - 1;
      || (SumFrame(s[n], a[n], b[n]) && SameStack(s[..n], a[..n]) && SameStack(s[..n], b[..n]))
      || (n > 0 && SameFrame(s[n], a[n]) && SameFrame(s[n], b[n]) && SumStack(s[..n], a[..n], b[..n]))
  }

  // --- Reading on from stacks that mean the same ----------------------------

  lemma AppendSameFrame(f: Frame, g: Frame, x: seq<Item>, y: seq<Item>)
    requires SameFrame(f, g) && Meaning(x) == Meaning(y)
    ensures SameFrame(Frame(f.done, f.current + x), Frame(g.done, g.current + y))
  {
    hide Meaning, AnyOf, Flat, Then;
    MeaningConcat(f.current, x);
    MeaningConcat(g.current, y);
  }

  lemma CommaSame(f: Frame, g: Frame)
    requires SameFrame(f, g)
    ensures SameFrame(Frame(f.done + [Branch(f.current)], []), Frame(g.done + [Branch(g.current)], []))
  {
    hide Meaning, AnyOf, Flat, Then;
    AnyOfSnoc(f.done, f.current);
    AnyOfSnoc(g.done, g.current);
    FlatSnoc(f.done, f.current);
    FlatSnoc(g.done, g.current);
  }

  lemma GroupSame(f: Frame, g: Frame)
    requires SameFrame(f, g)
    ensures Meaning([Group(f.done + [Branch(f.current)])]) == Meaning([Group(g.done + [Branch(g.current)])])
  {
    hide Meaning, AnyOf, Flat, Then;
    GroupMeaning(f.done, f.current);
    GroupMeaning(g.done, g.current);
  }

  lemma FrameIsItself(f: Frame)
    ensures SameFrame(f, f)
  {
  }

  lemma StackIsItself(s: seq<Frame>)
    ensures SameStack(s, s)
  {
    hide SameFrame;
    forall k | 0 <= k < |s|
      ensures SameFrame(s[k], s[k])
    {
      FrameIsItself(s[k]);
    }
  }

  // --- Reading on from a sum ------------------------------------------------

  lemma AppendSumFrame(f: Frame, a: Frame, b: Frame, x: seq<Item>, y: seq<Item>, z: seq<Item>)
    requires SumFrame(f, a, b) && Meaning(x) == Meaning(y) == Meaning(z)
    ensures SumFrame(Frame(f.done, f.current + x), Frame(a.done, a.current + y), Frame(b.done, b.current + z))
  {
    hide Meaning, AnyOf, Flat, Then;
    MeaningConcat(f.current, x);
    MeaningConcat(a.current, y);
    MeaningConcat(b.current, z);
    ThenUnionLeft(Meaning(a.current), Meaning(b.current), Meaning(x));
  }

  lemma SplitFrame(f: Frame, a: Frame, b: Frame, x: seq<Item>, y: seq<Item>, z: seq<Item>)
    requires SameFrame(f, a) && SameFrame(f, b) && Meaning(x) == Meaning(y) + Meaning(z)
    ensures SumFrame(Frame(f.done, f.current + x), Frame(a.done, a.current + y), Frame(b.done, b.current + z))
  {
    hide Meaning, AnyOf, Flat, Then;
    MeaningConcat(f.current, x);
    MeaningConcat(a.current, y);
    MeaningConcat(b.current, z);
    ThenUnionRight(Meaning(f.current), Meaning(y), Meaning(z));
  }

  lemma AppendTop(s: seq<Frame>, x: seq<Item>)
    requires s != []
    ensures var n := |s| - 1;
      |Append(s, x)| == |s| && Append(s, x)[..n] == s[..n] && Append(s, x)[n] == Frame(s[n].done, s[n].current + x)
  {
  }

  lemma AppendSum(s: seq<Frame>, a: seq<Frame>, b: seq<Frame>, x: seq<Item>, y: seq<Item>, z: seq<Item>)
    requires SumStack(s, a, b) && Meaning(x) == Meaning(y) == Meaning(z)
    ensures SumStack(Append(s, x), Append(a, y), Append(b, z))
  {
    hide SameFrame, SumFrame, SameStack, Meaning, Append;
    AppendTop(s, x);
    AppendTop(a, y);
    AppendTop(b, z);
    var n := |s| - 1;
    if SumFrame(s[n], a[n], b[n]) { AppendSumFrame(s[n], a[n], b[n], x, y, z); }
    if SameFrame(s[n], a[n]) { AppendSameFrame(s[n], a[n], x, y); }
    if SameFrame(s[n], b[n]) { AppendSameFrame(s[n], b[n], x, z); }
  }

  lemma AppendSplit(s: seq<Frame>, a: seq<Frame>, b: seq<Frame>, x: seq<Item>, y: seq<Item>, z: seq<Item>)
    requires s != [] && SameStack(s, a) && SameStack(s, b) && Meaning(x) == Meaning(y) + Meaning(z)
    ensures SumStack(Append(s, x), Append(a, y), Append(b, z))
  {
    hide SameFrame, SumFrame, Meaning, Append;
    AppendTop(s, x);
    AppendTop(a, y);
    AppendTop(b, z);
    var n := |s| - 1;
    SplitFrame(s[n], a[n], b[n], x, y, z);
  }

  lemma CommaSum(f: Frame, a: Frame, b: Frame)
    requires SumFrame(f, a, b)
    ensures SumFrame(Frame(f.done + [Branch(f.current)], []), Frame(a.done + [Branch(a.current)], []),
                     Frame(b.done + [Branch(b.current)], []))
  {
    hide Meaning, AnyOf, Flat, Then;
    AnyOfSnoc(f.done, f.current);
    AnyOfSnoc(a.done, a.current);
    AnyOfSnoc(b.done, b.current);
    FlatSnoc(f.done, f.current);
    FlatSnoc(a.done, a.current);
    FlatSnoc(b.done, b.current);
    var fa, fb, ca, cb := Meaning(Flat(a.done)), Meaning(Flat(b.done)), Meaning(a.current), Meaning(b.current);
    ThenUnionLeft(fa, fb, Meaning(f.current));
    ThenUnionRight(Meaning(Flat(f.done)), ca, cb);
    ThenUnionLeft(Then(fa, ca), Then(fb, cb), {","});
  }

  lemma GroupSum(f: Frame, a: Frame, b: Frame)
    requires SumFrame(f, a, b)
    ensures Meaning([Group(f.done + [Branch(f.current)])]) ==
            Meaning([Group(a.done + [Branch(a.current)])]) + Meaning([Group(b.done + [Branch(b.current)])])
  {
    GroupMeaning(f.done, f.current);
    GroupMeaning(a.done, a.current);
    GroupMeaning(b.done, b.current);
    hide Meaning, Flat, Then;
    var ca, cb := Meaning(a.current), Meaning(b.current);
    ThenUnionRight({"{"}, ca, cb);
    ThenUnionLeft(Then({"{"}, ca), Then({"{"}, cb), {"}"});
  }

  lemma FeedSum(s: seq<Frame>, a: seq<Frame>, b: seq<Frame>, c: char)
    requires SumStack(s, a, b)
    ensures SumStack(Feed(s, c), Feed(a, c), Feed(b, c))
  {
    hide SameFrame, SumFrame, SameStack, Append, Meaning;
    var n := |s| - 1;
    if c == '{' {
      FrameIsItself(EMPTY);
      assert (s + [EMPTY])[..n + 1] == s && (a + [EMPTY])[..n + 1] == a && (b + [EMPTY])[..n + 1] == b;
    } else if c == '}' && n > 0 {
      CloseGroupSum(s, a, b);
    } else if c == ',' && n > 0 {
      if SumFrame(s[n], a[n], b[n]) { CommaSum(s[n], a[n], b[n]); }
      if SameFrame(s[n], a[n]) { CommaSame(s[n], a[n]); }
      if SameFrame(s[n], b[n]) { CommaSame(s[n], b[n]); }
      FrameSnoc(s[..n], Frame(s[n].done + [Branch(s[n].current)], []));
      FrameSnoc(a[..n], Frame(a[n].done + [Branch(a[n].current)], []));
      FrameSnoc(b[..n], Frame(b[n].done + [Branch(b[n].current)], []));
    } else {
      AppendSum(s, a, b, [Ch(c)], [Ch(c)], [Ch(c)]);
    }
  }

  lemma CloseGroupSum(s: seq<Frame>, a: seq<Frame>, b: seq<Frame>)
    requires SumStack(s, a, b) && |s| > 1
    ensures SumStack(Feed(s, '}'), Feed(a, '}'), Feed(b, '}'))
  {
    hide SameFrame, SumFrame, SameStack, Append, Meaning;
    var n := |s| - 1;
    var x, y, z := [Group(s[n].done + [Branch(s[n].current)])], [Group(a[n].done + [Branch(a[n].current)])],
      [Group(b[n].done + [Branch(b[n].current)])];
    if SumFrame(s[n], a[n], b[n]) && SameStack(s[..n], a[..n]) && SameStack(s[..n], b[..n]) {
      GroupSum(s[n], a[n], b[n]);
      AppendSplit(s[..n], a[..n], b[..n], x, y, z);
    } else {
      GroupSame(s[n], a[n]);
      GroupSame(s[n], b[n]);
      AppendSum(s[..n], a[..n], b[..n], x, y, z);
    }
  }

  lemma {:induction false} ReadSum(s: seq<Frame>, a: seq<Frame>, b: seq<Frame>, q: string)
    requires SumStack(s, a, b)
    ensures SumStack(Read(s, q), Read(a, q), Read(b, q))
  {
    hide SumStack, Feed;
    assert s != [] && a != [] && b != [] by { SumNotEmpty(s, a, b); }
    if q != [] {
      ReadSum(s, a, b, q[..|q| - 1]);
      FeedSum(Read(s, q[..|q| - 1]), Read(a, q[..|q| - 1]), Read(b, q[..|q| - 1]), q[|q| - 1]);
    }
  }

  lemma SumNotEmpty(s: seq<Frame>, a: seq<Frame>, b: seq<Frame>)
    requires SumStack(s, a, b)
    ensures |s| == |a| == |b| && s != []
  {
  }

  lemma FrameText(f: Frame)
    ensures Meaning(Flat(f.done) + f.current) == Then(Meaning(Flat(f.done)), Meaning(f.current))
  {
    MeaningConcat(Flat(f.done), f.current);
  }

  lemma CloseMeaning(stack: seq<Frame>)
    requires |stack| > 1
    ensures var n := |stack| - 1;
      Meaning(Close(stack)) ==
        Then(Then(Meaning(Close(stack[..n])), {"{"}), Then(Meaning(Flat(stack[n].done)), Meaning(stack[n].current)))
  {
    hide Then, Meaning, Flat;
    var n := |stack| - 1;
    FrameText(stack[n]);
    MeaningConcat(Close(stack[..n]), [Ch('{')]);
    MeaningOne(Ch('{'));
    MeaningConcat(Close(stack[..n]) + [Ch('{')], Flat(stack[n].done) + stack[n].current);
  }

  lemma {:induction false} CloseSame(s: seq<Frame>, t: seq<Frame>)
    requires s != [] && SameStack(s, t)
    ensures Meaning(Close(s)) == Meaning(Close(t))
  {
    hide Meaning, Flat, Then, AnyOf;
    var n := |s| - 1;
    assert SameFrame(s[n], t[n]);
    if n == 0 {
      FrameText(s[0]);
      FrameText(t[0]);
    } else {
      CloseMeaning(s);
      CloseMeaning(t);
      CloseSame(s[..n], t[..n]);
    }
  }

  lemma FrameSum(f: Frame, a: Frame, b: Frame)
    requires SumFrame(f, a, b)
    ensures Then(Meaning(Flat(f.done)), Meaning(f.current)) ==
            Then(Meaning(Flat(a.done)), Meaning(a.current)) + Then(Meaning(Flat(b.done)), Meaning(b.current))
  {
    hide Meaning, Flat, Then, AnyOf;
    ThenUnionRight(Meaning(Flat(f.done)), Meaning(a.current), Meaning(b.current));
    ThenUnionLeft(Meaning(Flat(a.done)), Meaning(Flat(b.done)), Meaning(f.current));
  }

  lemma {:induction false} CloseSum(s: seq<Frame>, a: seq<Frame>, b: seq<Frame>)
    requires SumStack(s, a, b)
    ensures Meaning(Close(s)) == Meaning(Close(a)) + Meaning(Close(b))
  {
    hide Meaning, Flat, Then, AnyOf, SameStack, SumFrame;
    var n := |s| - 1;
    if n == 0 {
      FrameText(s[0]);
      FrameText(a[0]);
      FrameText(b[0]);
      FrameSum(s[0], a[0], b[0]);
    } else {
      CloseMeaning(s);
      CloseMeaning(a);
      CloseMeaning(b);
      var below, belowA, belowB := Meaning(Close(s[..n])), Meaning(Close(a[..n])), Meaning(Close(b[..n]));
      if SumFrame(s[n], a[n], b[n]) && SameStack(s[..n], a[..n]) && SameStack(s[..n], b[..n]) {
        CloseSame(s[..n], a[..n]);
        CloseSame(s[..n], b[..n]);
        FrameSum(s[n], a[n], b[n]);
        ThenUnionRight(Then(below, {"{"}), Then(Meaning(Flat(a[n].done)), Meaning(a[n].current)),
                       Then(Meaning(Flat(b[n].done)), Meaning(b[n].current)));
      } else {
        CloseSum(s[..n], a[..n], b[..n]);
        ThenUnionLeft(belowA, belowB, {"{"});
        ThenUnionLeft(Then(belowA, {"{"}), Then(belowB, {"{"}), Then(Meaning(Flat(s[n].done)), Meaning(s[n].current)));
      }
    }
  }

  // --- Replacing a group by its alternatives --------------------------------

  /** What a pattern means when `items` stand between what is read and what follows. */
  ghost function InContext(stack: seq<Frame>, items: seq<Item>, suffix: string): Language
    requires stack != []
  {
    Meaning(Close(Read(Append(stack, items), suffix)))
  }

  lemma ContextSum(stack: seq<Frame>, x: seq<Item>, y: seq<Item>, z: seq<Item>, suffix: string)
    requires stack != [] && Meaning(x) == Meaning(y) + Meaning(z)
    ensures InContext(stack, x, suffix) == InContext(stack, y, suffix) + InContext(stack, z, suffix)
  {
    hide Meaning, SumStack, SameStack, Append, Close;
    StackIsItself(stack);
    AppendSplit(stack, stack, stack, x, y, z);
    ReadSum(Append(stack, x), Append(stack, y), Append(stack, z), suffix);
    CloseSum(Read(Append(stack, x), suffix), Read(Append(stack, y), suffix), Read(Append(stack, z), suffix));
  }

  ghost function AnyInContext(stack: seq<Frame>, alternatives: seq<Branch>, suffix: string): Language
    requires stack != []
  {
    if alternatives == [] then {}
    else
      var n := |alternatives| - 1;
      AnyInContext(stack, alternatives[..n], suffix) + InContext(stack, alternatives[n].items, suffix)
  }

  function Choice(alternatives: seq<Branch>): seq<Item>
    requires alternatives != []
  {
    if |alternatives| == 1 then alternatives[0].items else [Group(alternatives)]
  }

  lemma ChoiceMeaning(alternatives: seq<Branch>)
    requires alternatives != []
    ensures Meaning(Choice(alternatives)) == AnyOf(alternatives)
  {
    hide Meaning;
    if |alternatives| == 1 {
      assert AnyOf(alternatives[..0]) == {};
    } else {
      MeaningOne(Group(alternatives));
    }
  }

  /** A choice means, in any context, what its alternatives mean in its place. */
  lemma {:induction false} ChoiceInContext(stack: seq<Frame>, alternatives: seq<Branch>, suffix: string)
    requires stack != [] && alternatives != []
    ensures InContext(stack, Choice(alternatives), suffix) == AnyInContext(stack, alternatives, suffix)
  {
    hide InContext, Meaning;
    var n := |alternatives| - 1;
    if n == 0 {
      assert AnyInContext(stack, alternatives[..0], suffix) == {};
    } else {
      var front := alternatives[..n];
      ChoiceInContext(stack, front, suffix);
      ChoiceMeaning(alternatives);
      ChoiceMeaning(front);
      hide Choice, AnyInContext;
      assert Meaning(Choice(alternatives)) == Meaning(Choice(front)) + Meaning(alternatives[n].items);
      ContextSum(stack, Choice(alternatives), Choice(front), alternatives[n].items, suffix);
      assert AnyInContext(stack, alternatives, suffix) ==
             AnyInContext(stack, front, suffix) + InContext(stack, alternatives[n].items, suffix) by {
        AnyStep(stack, alternatives, suffix);
      }
    }
  }

  lemma AnyStep(stack: seq<Frame>, alternatives: seq<Branch>, suffix: string)
    requires stack != [] && alternatives != []
    ensures AnyInContext(stack, alternatives, suffix) ==
            AnyInContext(stack, alternatives[..|alternatives| - 1], suffix)
              + InContext(stack, alternatives[|alternatives| - 1].items, suffix)
  {
  }
}
