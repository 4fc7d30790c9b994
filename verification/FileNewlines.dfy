/** The newlines of a file, counted in one pass over its bytes, and the kind that is written. */
module FileNewlines {
  import opened Utf8
  import opened FileModel
  import opened FileLoading

  /** LF by itself, CRLF, and CR by itself. */
  function Newlines(b: seq<byte>): NewlineStats
    decreases |b|
  {
    if b == [] then NewlineStats(0, 0, 0)
    else if b[0] == 13 && |b| >= 2 && b[1] == 10 then
      var rest := Newlines(b[2..]);
      NewlineStats(rest.lf, rest.crlf + 1, rest.cr)
    else
      var rest := Newlines(b[1..]);
      if b[0] == 10 then NewlineStats(rest.lf + 1, rest.crlf, rest.cr)
      else if b[0] == 13 then NewlineStats(rest.lf, rest.crlf, rest.cr + 1)
      else rest
  }

  function Sum(a: NewlineStats, b: NewlineStats): NewlineStats {
    NewlineStats(a.lf + b.lf, a.crlf + b.crlf, a.cr + b.cr)
  }

  function OneOf(kind: NewlineKind): NewlineStats {
    match kind
    case Lf => NewlineStats(1, 0, 0)
    case CrLf => NewlineStats(0, 1, 0)
    case Cr => NewlineStats(0, 0, 1)
    case NoNewline => NewlineStats(0, 0, 0)
  }

  lemma {:induction false} StatsHead(lines: seq<LineSlice>)
    requires lines != []
    ensures StatsOf(lines) == Sum(OneOf(lines[0].kind), StatsOf(lines[1..]))
    decreases |lines|
  {
    var n := |lines| - 1;
    if n > 0 {
      assert lines[..n][1..] == lines[1..][..n - 1];
      StatsHead(lines[..n]);
    } else {
      assert lines[..0] == [] && lines[1..] == [];
    }
  }

  lemma {:induction false} PlainBytes(b: seq<byte>, i: nat, e: nat)
    requires i <= e <= |b| && forall k :: i <= k < e ==> !IsNewline(b[k])
    ensures Newlines(b[i..]) == Newlines(b[e..])
    decreases e - i
  {
    if i < e {
      assert b[i..][1..] == b[i + 1..];
      PlainBytes(b, i + 1, e);
    }
  }

  lemma LineNewline(b: seq<byte>, i: nat)
    requires i < |b|
    ensures var l := LineAt(b, i); Newlines(b[i..]) == Sum(OneOf(l.kind), Newlines(b[l.newlineEnd..]))
  {
    hide Newlines, LineAt;
    var l := LineAt(b, i);
    KindAt(b, i);
    PlainBytes(b, i, l.contentEnd);
    if l.contentEnd < |b| { NewlineAt(b, l.contentEnd); } else { NothingLeft(b, l.contentEnd); }
  }

  lemma KindAt(b: seq<byte>, i: nat)
    requires i < |b|
    ensures var l := LineAt(b, i);
      var e := l.contentEnd;
      && i <= e <= |b| && (forall k :: i <= k < e ==> !IsNewline(b[k]))
      && (e == |b| ==> l.kind == NoNewline && l.newlineEnd == e)
      && (e < |b| ==> IsNewline(b[e]))
      && (e < |b| && b[e] == 10 ==> l.kind == Lf && l.newlineEnd == e + 1)
      && (e < |b| && b[e] == 13 && e + 1 < |b| && b[e + 1] == 10 ==> l.kind == CrLf && l.newlineEnd == e + 2)
      && (e < |b| && b[e] == 13 && !(e + 1 < |b| && b[e + 1] == 10) ==> l.kind == Cr && l.newlineEnd == e + 1)
  {
  }

  lemma NothingLeft(b: seq<byte>, e: nat)
    requires e == |b|
    ensures Newlines(b[e..]) == Sum(OneOf(NoNewline), Newlines(b[e..]))
  {
  }

  lemma Cut(b: seq<byte>, e: nat, k: nat)
    requires e + k <= |b|
    ensures b[e..][k..] == b[e + k..]
  {
  }

  lemma NewlineAt(b: seq<byte>, e: nat)
    requires e < |b| && IsNewline(b[e])
    ensures b[e] == 10 ==> Newlines(b[e..]) == Sum(OneOf(Lf), Newlines(b[e + 1..]))
    ensures b[e] == 13 && e + 1 < |b| && b[e + 1] == 10 ==> Newlines(b[e..]) == Sum(OneOf(CrLf), Newlines(b[e + 2..]))
    ensures b[e] == 13 && !(e + 1 < |b| && b[e + 1] == 10) ==> Newlines(b[e..]) == Sum(OneOf(Cr), Newlines(b[e + 1..]))
  {
    Cut(b, e, 1);
    if e + 1 < |b| { Cut(b, e, 2); }
    NewlinesOnce(b[e..]);
    hide Newlines;
  }

  lemma NewlinesOnce(b: seq<byte>)
    requires b != []
    ensures Newlines(b) ==
            if b[0] == 13 && |b| >= 2 && b[1] == 10 then Sum(OneOf(CrLf), Newlines(b[2..]))
            else Sum(OneOf(if b[0] == 10 then Lf else if b[0] == 13 then Cr else NoNewline), Newlines(b[1..]))
  {
  }

  lemma {:induction false} StatsFrom(b: seq<byte>, i: nat)
    requires i <= |b|
    ensures StatsOf(LinesFrom(b, i)) == Newlines(b[i..])
    decreases |b| - i
  {
    hide LineAt;
    if i < |b| {
      LineNewline(b, i);
      StatsFrom(b, LineAt(b, i).newlineEnd);
      StatsHead(LinesFrom(b, i));
      assert LinesFrom(b, i)[1..] == LinesFrom(b, LineAt(b, i).newlineEnd);
    }
  }

  /** Splitting into lines counts every newline of the file, each as what it is. */
  lemma StatsExactly(b: seq<byte>)
    ensures StatsOf(Lines(b)) == Newlines(b)
  {
    StatsFrom(b, 0);
    assert b[0..] == b;
    if b == [] { StatsHead([LineSlice(0, 0, 0, NoNewline)]); }
  }

  /**
    What is written for a newline: that of the most frequent kind, CRLF before LF before CR,
    and LF when there is none.
   */
  lemma WrittenNewline(b: seq<byte>)
    ensures var n, bytes := Newlines(b), StatsOf(Lines(b)).DefaultKind().Bytes();
      && (bytes == [13, 10] <==> n.crlf > 0 && n.lf <= n.crlf && n.cr <= n.crlf)
      && (bytes == [13] <==> n.lf < n.cr && n.crlf < n.cr)
      && (bytes == [10] || bytes == [13] || bytes == [13, 10])
  {
    StatsExactly(b);
    hide StatsOf, Lines, Newlines;
  }
}
