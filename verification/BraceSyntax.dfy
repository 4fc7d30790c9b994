/**
  What a pattern with braces means. A matched pair of braces with a comma of its
  own is a choice between its parts; one without is two literal braces around its
  content; unmatched braces, and commas outside any matched pair, are literal.
 */
module BraceSyntax {
  import opened Languages
  import opened Sequences

  /** `Group` has one alternative when the pair holds no comma of its own. */
  datatype Item = Ch(c: char) | Group(alternatives: seq<Branch>)

  datatype Branch = Branch(items: seq<Item>)

  // --- Meaning --------------------------------------------------------------

  ghost function ItemMeaning(item: Item): Language
    decreases item
  {
    match item
    case Ch(c) => {[c]}
    case Group(alternatives) =>
      if |alternatives| == 1 then Then(Then({"{"}, Meaning(alternatives[0].items)), {"}"})
      else AnyOf(alternatives)
  }

  ghost function Meaning(items: seq<Item>): Language
    decreases items
  {
    if items == [] then {""} else Then(Meaning(items[..|items| - 1]), ItemMeaning(items[|items| - 1]))
  }

  ghost function AnyOf(alternatives: seq<Branch>): Language
    decreases alternatives
  {
    if alternatives == [] then {}
    else AnyOf(alternatives[..|alternatives| - 1]) + Meaning(alternatives[|alternatives| - 1].items)
  }

  // --- Parsing --------------------------------------------------------------

  /** An open brace: its finished alternatives and the one being read. The bottom frame is the pattern itself. */
  datatype Frame = Frame(done: seq<Branch>, current: seq<Item>)

  const EMPTY := Frame([], [])

  function Append(stack: seq<Frame>, items: seq<Item>): (r: seq<Frame>)
    requires stack != []
    ensures |r| == |stack|
  {
    var top := stack[|stack| - 1];
    stack[..|stack| - 1] + [Frame(top.done, top.current + items)]
  }

  function Feed(stack: seq<Frame>, c: char): (r: seq<Frame>)
    requires stack != []
    ensures r != []
  {
    var top := stack[|stack| - 1];
    if c == '{' then stack + [EMPTY]
    else if c == '}' && |stack| > 1 then Append(stack[..|stack| - 1], [Group(top.done + [Branch(top.current)])])
    else if c == ',' && |stack| > 1 then stack[..|stack| - 1] + [Frame(top.done + [Branch(top.current)], [])]
    else Append(stack, [Ch(c)])
  }

  function Read(stack: seq<Frame>, s: string): (r: seq<Frame>)
    requires stack != []
    ensures r != []
  {
    if s == [] then stack else Feed(Read(stack, s[..|s| - 1]), s[|s| - 1])
  }

  /** The content of a brace that is never closed. */
  function Flat(done: seq<Branch>): seq<Item> {
    if done == [] then [] else Flat(done[..|done| - 1]) + done[|done| - 1].items + [Ch(',')]
  }

  function Close(stack: seq<Frame>): seq<Item>
    requires stack != []
  {
    var top := stack[|stack| - 1];
    if |stack| == 1 then Flat(top.done) + top.current
    else Close(stack[..|stack| - 1]) + [Ch('{')] + (Flat(top.done) + top.current)
  }

  /** Every string is a pattern. */
  function Parse(s: string): seq<Item> { Close(Read([EMPTY], s)) }

  // --- Parsing keeps the text -----------------------------------------------

  function ItemText(item: Item): string
    decreases item
  {
    match item
    case Ch(c) => [c]
    case Group(alternatives) => "{" + ListText(alternatives) + "}"
  }

  function Text(items: seq<Item>): string
    decreases items
  {
    if items == [] then "" else Text(items[..|items| - 1]) + ItemText(items[|items| - 1])
  }

  function ListText(alternatives: seq<Branch>): string
    decreases alternatives
  {
    if alternatives == [] then ""
    else if |alternatives| == 1 then Text(alternatives[0].items)
    else ListText(alternatives[..|alternatives| - 1]) + "," + Text(alternatives[|alternatives| - 1].items)
  }

  lemma {:induction false} TextConcat(a: seq<Item>, b: seq<Item>)
    ensures Text(a + b) == Text(a) + Text(b)
  {
    if b == [] {
      assert a + b == a;
    } else {
      assert (a + b)[..|a + b| - 1] == a + b[..|b| - 1];
      TextConcat(a, b[..|b| - 1]);
      Join3(Text(a), Text(b[..|b| - 1]), ItemText(b[|b| - 1]));
    }
  }

  lemma TextOne(item: Item)
    ensures Text([item]) == ItemText(item)
  {
    assert [item][..0] == [];
  }

  lemma {:induction false} FlatText(done: seq<Branch>, last: seq<Item>)
    ensures Text(Flat(done) + last) == ListText(done + [Branch(last)])
  {
    assert (done + [Branch(last)])[..|done|] == done;
    if done == [] {
      assert Flat(done) + last == last;
    } else {
      var front, prev := done[..|done| - 1], done[|done| - 1].items;
      assert front + [Branch(prev)] == done;
      FlatText(front, prev);
      TextConcat(Flat(front) + prev, [Ch(',')]);
      TextOne(Ch(','));
      TextConcat(Flat(done), last);
    }
  }

  /** What a stack has read. */
  function StackText(stack: seq<Frame>): string
    requires stack != []
  {
    Text(Close(stack))
  }

  lemma FrameSnoc(below: seq<Frame>, top: Frame)
    ensures (below + [top])[..|below|] == below && (below + [top])[|below|] == top
  {
  }

  lemma CloseAbove(below: seq<Frame>, top: Frame)
    requires below != []
    ensures StackText(below + [top]) == StackText(below) + "{" + Text(Flat(top.done) + top.current)
  {
    FrameSnoc(below, top);
    TextConcat(Close(below), [Ch('{')]);
    TextOne(Ch('{'));
    TextConcat(Close(below) + [Ch('{')], Flat(top.done) + top.current);
  }

  lemma AppendText(stack: seq<Frame>, items: seq<Item>)
    requires stack != []
    ensures StackText(Append(stack, items)) == StackText(stack) + Text(items)
  {
    var below, top := stack[..|stack| - 1], stack[|stack| - 1];
    assert stack == below + [top];
    var grown := Frame(top.done, top.current + items);
    assert Flat(top.done) + (top.current + items) == (Flat(top.done) + top.current) + items;
    TextConcat(Flat(top.done) + top.current, items);
    if below == [] {
      assert Append(stack, items) == [grown];
    } else {
      CloseAbove(below, top);
      CloseAbove(below, grown);
      Join3(StackText(below) + "{", Text(Flat(top.done) + top.current), Text(items));
    }
  }

  lemma FeedText(stack: seq<Frame>, c: char)
    requires stack != []
    ensures StackText(Feed(stack, c)) == StackText(stack) + [c]
  {
    hide StackText, Text, ListText, Flat, Append;
    var below, top := stack[..|stack| - 1], stack[|stack| - 1];
    assert stack == below + [top];
    TextOne(Ch(c));
    if c == '{' {
      CloseAbove(stack, EMPTY);
      EmptyText();
    } else if c == '}' && below != [] {
      var group := Group(top.done + [Branch(top.current)]);
      AppendText(below, [group]);
      TextOne(group);
      FlatText(top.done, top.current);
      CloseAbove(below, top);
      Join3(StackText(below), "{", ListText(group.alternatives) + "}");
      Join3(StackText(below) + "{", ListText(group.alternatives), "}");
      Join3("{", ListText(group.alternatives), "}");
    } else if c == ',' && below != [] {
      CloseAbove(below, top);
      CloseAbove(below, Frame(top.done + [Branch(top.current)], []));
      NextText(top.done, top.current);
      Join3(StackText(below) + "{", Text(Flat(top.done) + top.current), ",");
    } else {
      AppendText(stack, [Ch(c)]);
    }
  }

  lemma EmptyText()
    ensures Text(Flat([]) + []) == ""
  {
  }

  lemma NextText(done: seq<Branch>, current: seq<Item>)
    ensures Text(Flat(done + [Branch(current)]) + []) == Text(Flat(done) + current) + ","
  {
    assert (done + [Branch(current)])[..|done|] == done;
    TextConcat(Flat(done) + current, [Ch(',')]);
    TextOne(Ch(','));
    assert Flat(done + [Branch(current)]) + [] == Flat(done) + current + [Ch(',')];
  }

  /** A pattern is parsed without losing or moving a character. */
  lemma {:induction false} ParseKeepsText(s: string)
    ensures Text(Parse(s)) == s
  {
    hide Feed, Close, Text;
    if s == [] {
      StartText();
    } else {
      var front, c := s[..|s| - 1], s[|s| - 1];
      ParseKeepsText(front);
      FeedText(Read([EMPTY], front), c);
      assert Read([EMPTY], s) == Feed(Read([EMPTY], front), c);
      assert s == front + [c];
      hide Read;
    }
  }

  lemma StartText()
    ensures Text(Close([EMPTY])) == ""
  {
  }
}
