/**
  A file as an LF-only text with a table back to its bytes. The program splits
  the bytes into lines, decodes each line and collects the table; the
  specification reads the file once, token by token.
 */
module FileModel {
  import opened Utf8

  datatype NewlineKind = Lf | CrLf | Cr | NoNewline {
    function Bytes(): seq<byte> {
      match this
      case CrLf => [CR, LF]
      case Cr => [CR]
      case _ => [LF]
    }
  }

  datatype NewlineStats = NewlineStats(lf: nat, crlf: nat, cr: nat) {
    function Record(kind: NewlineKind): NewlineStats {
      match kind
      case Lf => this.(lf := lf + 1)
      case CrLf => this.(crlf := crlf + 1)
      case Cr => this.(cr := cr + 1)
      case NoNewline => this
    }

    function Count(kind: NewlineKind): nat {
      match kind
      case Lf => lf
      case CrLf => crlf
      case Cr => cr
      case NoNewline => 0
    }

    /** The most frequent kind; a tie goes to CRLF, then LF. */
    method Dominant() returns (kind: NewlineKind)
      ensures forall k :: Count(k) <= Count(kind)
      ensures kind == NoNewline <==> lf == crlf == cr == 0
      ensures kind == Lf ==> crlf < lf
      ensures kind == Cr ==> crlf < cr && lf < cr
      ensures kind == Preferred()
    {
      var best := 0;
      kind := NoNewline;
      var order := [(crlf, CrLf), (lf, Lf), (cr, Cr)];
      for i := 0 to 3
        invariant best == Count(kind)
        invariant kind == NoNewline ==> best == 0
        invariant kind == if i >= 3 then Preferred() else if i == 2
                  then (if lf > crlf then Lf else if crlf > 0 then CrLf else NoNewline)
                          else if i == 1 && crlf > 0 then CrLf else NoNewline
      {
        if order[i].0 > best { best, kind := order[i].0, order[i].1; }
      }
    }

    function Preferred(): NewlineKind {
      if crlf > 0 && lf <= crlf && cr <= crlf then CrLf
      else if lf > 0 && cr <= lf then Lf
      else if cr > 0 then Cr
      else NoNewline
    }

    function DefaultKind(): NewlineKind { if Preferred() == NoNewline then Lf else Preferred() }
  }

  // --- The one-pass reading of a file ---------------------------------------

  /** `width` bytes of the file that show as `text`, one character. */
  datatype Token = Token(width: nat, text: seq<byte>)

  datatype Boundary = Boundary(canonical: nat, file: nat)

  function ScalarStep(b: seq<byte>): (t: Token)
    requires b != []
    ensures 0 < t.width <= |b| && ScalarLen(t.text) == |t.text| > 0
  {
    var n := ScalarLen(b);
    if n > 0 then
      ScalarLenHead(b);
      Token(n, b[..n])
    else Token(1, REPLACEMENT)
  }

  function ScalarTokens(b: seq<byte>): seq<Token>
    decreases |b|
  {
    if b == [] then [] else [ScalarStep(b)] + ScalarTokens(b[ScalarStep(b).width..])
  }

  predicate IsNewline(x: byte) { x == LF || x == CR }

  function Step(b: seq<byte>): (t: Token)
    requires b != []
    ensures 0 < t.width <= |b| && ScalarLen(t.text) == |t.text| > 0
  {
    if b[0] == CR && |b| >= 2 && b[1] == LF then Token(2, [LF])
    else if IsNewline(b[0]) then Token(1, [LF])
    else ScalarStep(b)
  }

  function FileTokens(b: seq<byte>): seq<Token>
    decreases |b|
  {
    if b == [] then [] else [Step(b)] + FileTokens(b[Step(b).width..])
  }

  function TextOf(ts: seq<Token>): seq<byte> {
    if ts == [] then [] else ts[0].text + TextOf(ts[1..])
  }

  function WidthOf(ts: seq<Token>): nat {
    if ts == [] then 0 else ts[0].width + WidthOf(ts[1..])
  }

  /** The places after each token. */
  function Sums(ts: seq<Token>, c: nat, f: nat): seq<Boundary> {
    if ts == [] then []
    else [Boundary(c + |ts[0].text|, f + ts[0].width)] + Sums(ts[1..], c + |ts[0].text|, f + ts[0].width)
  }

  function CanonicalText(b: seq<byte>): seq<byte> { TextOf(FileTokens(b)) }

  function Table(b: seq<byte>): seq<Boundary> { [Boundary(0, 0)] + Sums(FileTokens(b), 0, 0) }

  ghost predicate OneScalarEach(ts: seq<Token>) {
    forall t :: t in ts ==> t.width > 0 && ScalarLen(t.text) == |t.text| > 0
  }

  lemma {:induction false} TokensAreScalars(b: seq<byte>)
    ensures OneScalarEach(FileTokens(b)) && WidthOf(FileTokens(b)) == |b|
    decreases |b|
  {
    if b != [] { TokensAreScalars(b[Step(b).width..]); }
  }

  lemma {:induction false} ScalarTokensAreScalars(b: seq<byte>)
    ensures OneScalarEach(ScalarTokens(b)) && WidthOf(ScalarTokens(b)) == |b|
    decreases |b|
  {
    if b != [] { ScalarTokensAreScalars(b[ScalarStep(b).width..]); }
  }

  lemma {:induction false} TextValid(ts: seq<Token>)
    requires OneScalarEach(ts)
    ensures Valid(TextOf(ts))
  {
    if ts != [] {
      assert ts[0] in ts;
      TextValid(ts[1..]);
      assert ts[0].text[|ts[0].text|..] == [];
      ValidConcat(ts[0].text, TextOf(ts[1..]));
    }
  }

  lemma {:induction false} TextConcat(a: seq<Token>, b: seq<Token>)
    ensures TextOf(a + b) == TextOf(a) + TextOf(b) && WidthOf(a + b) == WidthOf(a) + WidthOf(b)
  {
    if a == [] {
      assert a + b == b;
    } else {
      assert (a + b)[1..] == a[1..] + b && (a + b)[0] == a[0];
      TextConcat(a[1..], b);
    }
  }

  lemma {:induction false} SumsConcat(a: seq<Token>, b: seq<Token>, c: nat, f: nat)
    ensures Sums(a + b, c, f) == Sums(a, c, f) + Sums(b, c + |TextOf(a)|, f + WidthOf(a))
  {
    if a == [] {
      assert a + b == b;
    } else {
      assert (a + b)[1..] == a[1..] + b && (a + b)[0] == a[0];
      SumsConcat(a[1..], b, c + |a[0].text|, f + a[0].width);
    }
  }

  // --- The table is exact ---------------------------------------------------

  lemma {:induction false} SumsLength(ts: seq<Token>, c: nat, f: nat)
    ensures |Sums(ts, c, f)| == |ts|
  {
    if ts != [] { SumsLength(ts[1..], c + |ts[0].text|, f + ts[0].width); }
  }

  /** Each entry counts the text and the bytes of the tokens before it. */
  lemma {:induction false} SumsAt(ts: seq<Token>, c: nat, f: nat, k: nat)
    requires k < |ts|
    ensures |Sums(ts, c, f)| == |ts|
    ensures Sums(ts, c, f)[k] == Boundary(c + |TextOf(ts[..k + 1])|, f + WidthOf(ts[..k + 1]))
  {
    SumsLength(ts, c, f);
    assert ts[..k + 1][0] == ts[0] && ts[..k + 1][1..] == ts[1..][..k];
    if k > 0 { SumsAt(ts[1..], c + |ts[0].text|, f + ts[0].width, k - 1); }
  }

  /** Whether `i` is the end of some leading run of tokens. */
  ghost predicate TokenEnd(ts: seq<Token>, i: int) {
    exists k :: 0 <= k <= |ts| && |TextOf(ts[..k])| == i
  }

  /** The ends of tokens are exactly the character boundaries of the text. */
  lemma {:induction false} TokenEndsAreBoundaries(ts: seq<Token>, i: nat)
    requires OneScalarEach(ts) && i <= |TextOf(ts)|
    ensures TokenEnd(ts, i) <==> IsBoundary(TextOf(ts), i)
  {
    hide ScalarLen;
    var text := TextOf(ts);
    TextValid(ts);
    if ts == [] {
      assert ts[..0] == [];
    } else {
      var n := |ts[0].text|;
      assert ts[0] in ts;
      assert text[..n] == ts[0].text;
      ScalarLenPrefix(ts[0].text, text);
      if i == 0 {
        assert TextOf(ts[..0]) == [];
        ValidStart(text);
      } else if i < n {
        ScalarInterior(text, i);
        forall k | 0 <= k <= |ts|
          ensures |TextOf(ts[..k])| != i
        {
          if k > 0 { assert ts[..k][0] == ts[0]; }
        }
      } else {
        assert text[n..] == TextOf(ts[1..]);
        TokenEndsAreBoundaries(ts[1..], i - n);
        if TokenEnd(ts[1..], i - n) {
          var k :| 0 <= k <= |ts[1..]| && |TextOf(ts[1..][..k])| == i - n;
          assert ts[..k + 1][0] == ts[0] && ts[..k + 1][1..] == ts[1..][..k];
        }
        if TokenEnd(ts, i) {
          var k :| 0 <= k <= |ts| && |TextOf(ts[..k])| == i;
          assert ts[..0] == [];
          assert ts[..k][0] == ts[0] && ts[..k][1..] == ts[1..][..k - 1];
        }
      }
    }
  }

  lemma TableEntry(b: seq<byte>, k: nat)
    requires k < |Table(b)|
    ensures |Table(b)| == |FileTokens(b)| + 1
    ensures Table(b)[k] == Boundary(|TextOf(FileTokens(b)[..k])|, WidthOf(FileTokens(b)[..k]))
  {
    SumsLength(FileTokens(b), 0, 0);
    if k > 0 { SumsAt(FileTokens(b), 0, 0, k - 1); } else { assert FileTokens(b)[..0] == []; }
  }

  lemma TableAscends(b: seq<byte>, k: nat)
    requires k + 1 < |Table(b)|
    ensures Table(b)[k].canonical < Table(b)[k + 1].canonical && Table(b)[k].file < Table(b)[k + 1].file
  {
    var ts := FileTokens(b);
    TokensAreScalars(b);
    TableEntry(b, k);
    TableEntry(b, k + 1);
    assert ts[..k + 1] == ts[..k] + [ts[k]];
    assert ts[k] in ts;
    TextConcat(ts[..k], [ts[k]]);
    assert [ts[k]][1..] == [];
  }

  /**
    The offset table is exact, for valid and invalid files alike: it runs from
    the start to the end, rises strictly in both columns, and its canonical
    offsets are precisely the character boundaries of the view.
   */
  lemma TableExact(b: seq<byte>)
    ensures var t := Table(b);
      && t[0] == Boundary(0, 0) && t[|t| - 1] == Boundary(|CanonicalText(b)|, |b|)
      && (forall k :: 0 <= k < |t| - 1 ==> t[k].canonical < t[k + 1].canonical && t[k].file < t[k + 1].file)
      && (forall i: int :: (exists k :: 0 <= k < |t| && t[k].canonical == i) <==> IsBoundary(CanonicalText(b), i))
    ensures Valid(CanonicalText(b))
  {
    var t, ts := Table(b), FileTokens(b);
    TokensAreScalars(b);
    TextValid(ts);
    SumsLength(ts, 0, 0);
    TableEntry(b, |ts|);
    assert ts[..|ts|] == ts;
    forall k | 0 <= k < |t| - 1
      ensures t[k].canonical < t[k + 1].canonical && t[k].file < t[k + 1].file
    {
      TableAscends(b, k);
    }
    forall i: int
      ensures (exists k :: 0 <= k < |t| && t[k].canonical == i) <==> IsBoundary(CanonicalText(b), i)
    {
      forall k | 0 <= k < |t|
        ensures t[k].canonical == |TextOf(ts[..k])| <= |TextOf(ts)|
      {
        TableEntry(b, k);
        assert ts == ts[..k] + ts[k..];
        TextConcat(ts[..k], ts[k..]);
      }
      if 0 <= i <= |TextOf(ts)| {
        TokenEndsAreBoundaries(ts, i);
        if TokenEnd(ts, i) {
          var k :| 0 <= k <= |ts| && |TextOf(ts[..k])| == i;
          assert t[k].canonical == i;
        }
      }
    }
  }

  /** A table entry splits the file and its view together. */
  lemma {:induction false} TokensSplit(b: seq<byte>, k: nat)
    requires k <= |FileTokens(b)|
    ensures var f := WidthOf(FileTokens(b)[..k]);
      f <= |b| && FileTokens(b[..f]) == FileTokens(b)[..k] && FileTokens(b[f..]) == FileTokens(b)[k..]
    decreases k
  {
    hide ScalarLen;
    var ts := FileTokens(b);
    if k == 0 {
      assert b[..0] == [] && b[0..] == b && ts[..0] == [] && ts[0..] == ts;
    } else {
      var w, rest := Step(b).width, b[Step(b).width..];
      TokensSplit(rest, k - 1);
      assert ts[..k][0] == ts[0] && ts[..k][1..] == ts[1..][..k - 1];
      var f := WidthOf(ts[..k]);
      assert f == w + WidthOf(FileTokens(rest)[..k - 1]);
      StepTruncated(b, f);
      SplitStep(b, f);
      assert ts[..k] == [ts[0]] + ts[1..][..k - 1] && ts[k..] == ts[1..][k - 1..];
    }
  }

  lemma SplitStep(b: seq<byte>, f: nat)
    requires b != [] && Step(b).width <= f <= |b| && Step(b[..f]) == Step(b)
    ensures var w := Step(b).width;
      FileTokens(b[..f]) == [Step(b)] + FileTokens(b[w..][..f - w]) && b[f..] == b[w..][f - w..]
  {
    hide ScalarLen;
    var w := Step(b).width;
    assert b[..f][w..] == b[w..][..f - w];
  }

  /** Cutting the file at or after the end of a token does not change that token. */
  lemma StepTruncated(b: seq<byte>, f: nat)
    requires b != [] && Step(b).width <= f <= |b|
    ensures Step(b[..f]) == Step(b)
  {
    if !(b[0] == CR && |b| >= 2 && b[1] == LF) && !IsNewline(b[0]) {
      if ScalarLen(b) > 0 {
        ScalarLenHead(b);
        ScalarLenPrefix(b[..ScalarLen(b)], b[..f]);
        assert b[..f][..ScalarLen(b)] == b[..ScalarLen(b)];
      } else if ScalarLen(b[..f]) > 0 {
        ScalarLenPrefix(b[..f], b);
      }
    }
  }
}
