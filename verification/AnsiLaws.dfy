/**
  What stripping removes, sequence by sequence: each kind of escape sequence before any other
  text leaves that text.
 */
module AnsiLaws {
  import opened Sequences
  import opened Utf8
  import opened AnsiText

  lemma {:induction false} EscAfter(plain: seq<byte>, rest: seq<byte>)
    requires 0x1B !in plain
    ensures FindEsc(plain + rest) == |plain| + FindEsc(rest)
  {
    if plain == [] {
      assert plain + rest == rest;
    } else {
      assert (plain + rest)[1..] == plain[1..] + rest;
      EscAfter(plain[1..], rest);
    }
  }

  lemma StrippedUnfold(s: seq<byte>)
    ensures Stripped(s) == if FindEsc(s) == |s| then s else s[..FindEsc(s)] + Stripped(s[Resume(s)..])
  {
  }

  lemma CutSum(a: seq<byte>, b: seq<byte>, i: nat)
    requires i <= |b|
    ensures (a + b)[|a| + i..] == b[i..] && (a + b)[..|a| + i] == a + b[..i]
  {
  }

  lemma ResumeAfter(plain: seq<byte>, rest: seq<byte>)
    requires 0x1B !in plain && FindEsc(rest) < |rest|
    ensures FindEsc(plain + rest) < |plain + rest| && Resume(plain + rest) == |plain| + Resume(rest)
  {
    EscAfter(plain, rest);
    CutSum(plain, rest, FindEsc(rest) + 1);
    hide FindEsc, SkipEscape;
  }

  /** Text without ESC stays, whatever follows it. */
  lemma PlainStays(plain: seq<byte>, rest: seq<byte>)
    requires 0x1B !in plain
    ensures Stripped(plain + rest) == plain + Stripped(rest)
  {
    hide Stripped, FindEsc, Resume;
    EscAfter(plain, rest);
    StrippedUnfold(plain + rest);
    StrippedUnfold(rest);
    if FindEsc(rest) < |rest| {
      ResumeAfter(plain, rest);
      CutSum(plain, rest, FindEsc(rest));
      CutSum(plain, rest, Resume(rest));
      Join3(plain, rest[..FindEsc(rest)], Stripped(rest[Resume(rest)..]));
    }
  }

  lemma EscAtFront(tail: seq<byte>, n: nat)
    requires n == SkipEscape(tail)
    ensures Stripped([0x1B] + tail) == Stripped(tail[n..])
  {
    var s := [0x1B] + tail;
    StrippedUnfold(s);
    assert FindEsc(s) == 0 && s[1..] == tail;
    hide SkipEscape, FindEsc, Stripped;
    assert Resume(s) == 1 + n;
    CutSum([0x1B], tail, n);
    assert s[..0] == [];
  }

  /** `n` bytes at the front of a text. */
  lemma Front(a: seq<byte>, b: seq<byte>, n: nat)
    requires n == |a|
    ensures (a + b)[n..] == b
  {
  }

  lemma {:induction false} ParametersSkipped(params: seq<byte>, rest: seq<byte>)
    requires forall k :: 0 <= k < |params| ==> !(0x40 <= params[k] <= 0x7E)
    ensures SkipCsi(params + rest) == |params| + SkipCsi(rest)
  {
    if params == [] {
      assert params + rest == rest;
    } else {
      assert (params + rest)[1..] == params[1..] + rest;
      ParametersSkipped(params[1..], rest);
    }
  }

  /** `ESC [`, parameters and any final byte from 0x40 to 0x7E. */
  lemma ControlSequenceGoes(params: seq<byte>, last: byte, rest: seq<byte>)
    requires (forall k :: 0 <= k < |params| ==> !(0x40 <= params[k] <= 0x7E)) && 0x40 <= last <= 0x7E
    ensures Stripped([0x1B] + ([0x5B] + (params + ([last] + rest)))) == Stripped(rest)
  {
    hide Stripped, SkipCsi;
    var tail := params + ([last] + rest);
    ParametersSkipped(params, [last] + rest);
    LastSkipped(last, rest);
    Front([0x5B], tail, 1);
    EscAtFront([0x5B] + tail, |params| + 2);
    Join4([0x5B], params, [last], rest);
    Front([0x5B] + params + [last], rest, |params| + 2);
  }

  lemma LastSkipped(last: byte, rest: seq<byte>)
    requires 0x40 <= last <= 0x7E
    ensures SkipCsi([last] + rest) == 1
  {
  }

  /** One that never ends takes everything. */
  lemma OpenControlSequenceTakesAll(params: seq<byte>)
    requires forall k :: 0 <= k < |params| ==> !(0x40 <= params[k] <= 0x7E)
    ensures Stripped([0x1B] + ([0x5B] + params)) == []
  {
    ParametersSkipped(params, []);
    assert params + [] == params && ([0x5B] + params)[1..] == params;
    EscAtFront([0x5B] + params, |params| + 1);
    assert ([0x5B] + params)[|params| + 1..] == [];
  }

  /** Nothing in a string sequence ends it: no BEL, and no ESC before a backslash. */
  predicate Unended(body: seq<byte>) {
    0x07 !in body && forall k :: 0 <= k < |body| - 1 ==> !(body[k] == 0x1B && body[k + 1] == 0x5C)
  }

  lemma {:induction false} StringSkipped(body: seq<byte>, rest: seq<byte>)
    requires Unended(body) && (rest != [] ==> rest[0] != 0x5C)
    ensures SkipString(body + rest) == |body| + SkipString(rest)
  {
    if body == [] {
      assert body + rest == rest;
    } else {
      var all, more := body + rest, body[1..];
      assert all[1..] == more + rest;
      assert body[0] in body;
      assert forall k :: 0 <= k < |more| ==> more[k] == body[k + 1];
      if |body| > 1 { assert all[1] == body[1]; }
      StringSkipped(more, rest);
    }
  }

  /** `ESC ]`, text, and BEL or `ESC \\`. */
  lemma StringSequenceGoes(body: seq<byte>, bel: bool, rest: seq<byte>)
    requires Unended(body)
    ensures Stripped([0x1B] + ([0x5D] + (body + ((if bel then [0x07] else [0x1B, 0x5C]) + rest)))) == Stripped(rest)
  {
    hide Stripped, SkipString;
    var end := if bel then [0x07 as byte] else [0x1B, 0x5C];
    var tail := body + (end + rest);
    StringSkipped(body, end + rest);
    EndSkipped(bel, rest);
    Front([0x5D], tail, 1);
    var n := 1 + |body| + |end|;
    EscAtFront([0x5D] + tail, n);
    Join4([0x5D], body, end, rest);
    Front([0x5D] + body + end, rest, n);
  }

  lemma EndSkipped(bel: bool, rest: seq<byte>)
    ensures SkipString((if bel then [0x07] else [0x1B, 0x5C]) + rest) == if bel then 1 else 2
  {
  }

  /** `ESC (` or `ESC )` and one character. */
  lemma CharsetGoes(open: byte, c: seq<byte>, rest: seq<byte>)
    requires open in [0x28, 0x29] && c != [] && ScalarLen(c) == |c|
    ensures Stripped([0x1B] + ([open] + (c + rest))) == Stripped(rest)
  {
    ScalarLenPrefix(c, c + rest);
    hide ScalarLen;
    var tail := [open] + (c + rest);
    assert tail[1..] == c + rest;
    EscAtFront(tail, 1 + |c|);
    assert tail[1 + |c|..] == rest;
  }

  /** ESC and any other character. */
  lemma ShortSequenceGoes(c: seq<byte>, rest: seq<byte>)
    requires c != [] && ScalarLen(c) == |c| && c[0] !in [0x28, 0x29, 0x5B, 0x5D]
    ensures Stripped([0x1B] + (c + rest)) == Stripped(rest)
  {
    ScalarLenPrefix(c, c + rest);
    hide ScalarLen;
    assert (c + rest)[0] == c[0];
    EscAtFront(c + rest, |c|);
    assert (c + rest)[|c|..] == rest;
  }
}
