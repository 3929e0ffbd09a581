/**
 * The two span substitutions, `re.sub(r"\$\$(.+?)\$\$", ..., flags=re.DOTALL)` on the
 * whole text and `re.sub(r"\$(.+?)\$", ...)` on a prose line, as one hand-written
 * scanner: at each position try the shortest non-empty span opening there; when there
 * is one, replace it and resume after its closing delimiter, otherwise copy one character.
 */
module MathSpans {
  import opened Wrappers

  /** The `display` argument passed to the renderer. */
  datatype Mode = Block | Inline

  /** latex2mathml's `convert(s, display=...)`, taken as a parameter of the conversion. */
  type Renderer = (string, Mode) -> string

  function Delim(m: Mode): string
  {
    if m == Block then "$$" else "$"
  }

  /** Whether the pattern's `.` matches `c`: the block pattern is compiled with DOTALL, the inline one is not. */
  predicate Dot(m: Mode, c: char)
  {
    m == Block || c != '\n'
  }

  /**
   * `s` opens with the delimiter and a closing delimiter starts at `j`, around the
   * non-empty content `s[|d|..j]`, every character of which `.` matches.
   */
  ghost predicate ClosesAt(s: string, m: Mode, j: int)
  {
    var d := Delim(m);
    |d| < j && j + |d| <= |s| && s[..|d|] == d && s[j..j + |d|] == d
    && forall k :: |d| <= k < j ==> Dot(m, s[k])
  }

  /** The lazy `.+?`: the first closing position at or after `j`, given that the content before `j - 1` matched. */
  function FindClose(s: string, m: Mode, j: nat): (r: Option<nat>)
    requires |Delim(m)| < j <= |s| + 1 && s[..|Delim(m)|] == Delim(m)
    requires forall k :: |Delim(m)| <= k < j - 1 ==> Dot(m, s[k])
    ensures r.Some? ==> j <= r.value && ClosesAt(s, m, r.value)
    ensures forall j' :: j <= j' && (r.None? || j' < r.value) ==> !ClosesAt(s, m, j')
    decreases |s| - j
  {
    var d := Delim(m);
    if j + |d| > |s| || !Dot(m, s[j - 1]) then None
    else if s[j..j + |d|] == d then Some(j)
    else FindClose(s, m, j + 1)
  }

  /** The closing position of the shortest span opening at the start of `s`, if there is one. */
  function SpanAt(s: string, m: Mode): (r: Option<nat>)
    ensures r.Some? ==> ClosesAt(s, m, r.value)
    ensures forall j :: (r.None? || j < r.value) ==> !ClosesAt(s, m, j)
  {
    var d := Delim(m);
    if |s| >= |d| && s[..|d|] == d then FindClose(s, m, |d| + 1) else None
  }

  /** A piece of scanned text: a character copied as it is, or the content of a matched span. */
  datatype Piece = Plain(c: char) | Span(content: string)

  /**
   * `ps` is the leftmost-shortest, non-overlapping segmentation of `s`: a character is
   * copied only where no span opens, a span is the shortest one opening where it
   * stands, and scanning resumes right after its closing delimiter.
   */
  ghost predicate LeftmostShortest(ps: seq<Piece>, s: string, m: Mode)
    decreases |ps|
  {
    if ps == [] then s == []
    else
      match ps[0]
      case Plain(c) =>
        s != [] && s[0] == c && (forall j :: !ClosesAt(s, m, j))
        && LeftmostShortest(ps[1..], s[1..], m)
      case Span(x) =>
        var j := |Delim(m)| + |x|;
        ClosesAt(s, m, j) && s[|Delim(m)|..j] == x
        && (forall j' :: j' < j ==> !ClosesAt(s, m, j'))
        && LeftmostShortest(ps[1..], s[j + |Delim(m)|..], m)
  }

  /** The scan `re.sub` performs, as a list of pieces. */
  function Segment(s: string, m: Mode): (ps: seq<Piece>)
    ensures LeftmostShortest(ps, s, m)
    decreases |s|
  {
    if s == [] then []
    else
      match SpanAt(s, m)
      case Some(j) =>
        var rest := Segment(s[j + |Delim(m)|..], m);
        SpanStep(s, m, j, rest);
        [Span(s[|Delim(m)|..j])] + rest
      case None =>
        var rest := Segment(s[1..], m);
        PlainStep(s, m, rest);
        [Plain(s[0])] + rest
  }

  lemma {:induction false} SpanStep(s: string, m: Mode, j: nat, rest: seq<Piece>)
    requires SpanAt(s, m) == Some(j)
    requires j + |Delim(m)| <= |s| && LeftmostShortest(rest, s[j + |Delim(m)|..], m)
    ensures |Delim(m)| <= j && LeftmostShortest([Span(s[|Delim(m)|..j])] + rest, s, m)
  {
    assert ([Span(s[|Delim(m)|..j])] + rest)[1..] == rest;
  }

  lemma {:induction false} PlainStep(s: string, m: Mode, rest: seq<Piece>)
    requires s != [] && SpanAt(s, m).None? && LeftmostShortest(rest, s[1..], m)
    ensures LeftmostShortest([Plain(s[0])] + rest, s, m)
  {
    assert ([Plain(s[0])] + rest)[1..] == rest;
  }

  /** Two leftmost-shortest segmentations of a text start with the same piece. */
  lemma {:induction false} FirstPieceUnique(ps: seq<Piece>, qs: seq<Piece>, s: string, m: Mode)
    requires ps != [] && qs != []
    requires LeftmostShortest(ps, s, m) && LeftmostShortest(qs, s, m)
    ensures ps[0] == qs[0]
  {
    var d := Delim(m);
    match ps[0]
    case Plain(c) =>
    case Span(x) =>
      assert ClosesAt(s, m, |d| + |x|);
      var y := qs[0].content;
      assert ClosesAt(s, m, |d| + |y|);
      assert |x| == |y|;
  }

  /** There is only one leftmost-shortest segmentation of a text. */
  lemma {:induction false} SegmentationUnique(ps: seq<Piece>, qs: seq<Piece>, s: string, m: Mode)
    requires LeftmostShortest(ps, s, m) && LeftmostShortest(qs, s, m)
    ensures ps == qs
    decreases |ps|
  {
    if ps == [] || qs == [] {
      assert s == [];
    } else {
      FirstPieceUnique(ps, qs, s, m);
      var rest := match ps[0]
        case Plain(_) => s[1..]
        case Span(x) => s[|Delim(m)| + |x| + |Delim(m)|..];
      SegmentationUnique(ps[1..], qs[1..], rest, m);
      assert ps == [ps[0]] + ps[1..] && qs == [qs[0]] + qs[1..];
    }
  }

  /** The text that replaces the pieces, each span by what the renderer makes of its content. */
  function Emit(ps: seq<Piece>, m: Mode, render: Renderer): string
    decreases |ps|
  {
    if ps == [] then []
    else
      (match ps[0]
       case Plain(c) => [c]
       case Span(x) => render(x, m))
      + Emit(ps[1..], m, render)
  }

  /** `re.sub` of the mode's span pattern over `s`, with `render` as the replacement function. */
  function Substitute(s: string, m: Mode, render: Renderer): string
  {
    Emit(Segment(s, m), m, render)
  }

  /** The renderer that gives a span back exactly as it was written. */
  function Rewrap(x: string, m: Mode): string
  {
    Delim(m) + x + Delim(m)
  }

  lemma {:induction false} SpanSplits(s: string, m: Mode, x: string)
    requires ClosesAt(s, m, |Delim(m)| + |x|) && s[|Delim(m)|..|Delim(m)| + |x|] == x
    ensures s == Rewrap(x, m) + s[|Delim(m)| + |x| + |Delim(m)|..]
  {
    var d := Delim(m);
    var j := |d| + |x|;
    var e := j + |d|;
    assert s[..j] == s[..|d|] + s[|d|..j] == d + x;
    assert s[..e] == s[..j] + s[j..e] == Rewrap(x, m);
    assert s == s[..e] + s[e..];
  }

  /** Text outside spans is copied unchanged: putting every span back restores the text. */
  lemma {:induction false} EmitRewrap(ps: seq<Piece>, s: string, m: Mode)
    requires LeftmostShortest(ps, s, m)
    ensures Emit(ps, m, Rewrap) == s
    decreases |ps|
  {
    if ps != [] {
      match ps[0]
      case Plain(c) =>
        EmitRewrap(ps[1..], s[1..], m);
        assert Emit(ps, m, Rewrap) == [c] + Emit(ps[1..], m, Rewrap);
        assert s == [c] + s[1..];
      case Span(x) =>
        var d := Delim(m);
        var j := |d| + |x|;
        var rest := s[j + |d|..];
        SpanSplits(s, m, x);
        EmitRewrap(ps[1..], rest, m);
        assert Emit(ps, m, Rewrap) == Rewrap(x, m) + Emit(ps[1..], m, Rewrap);
    }
  }

  /** Substituting with a renderer that rewraps each span gives the text back. */
  lemma {:induction false} SubstituteRewrap(s: string, m: Mode)
    ensures Substitute(s, m, Rewrap) == s
  {
    EmitRewrap(Segment(s, m), s, m);
  }

  /** Whatever the renderer, the substitution is the one the leftmost-shortest segmentation determines. */
  lemma {:induction false} SubstituteBySegmentation(s: string, m: Mode, render: Renderer, ps: seq<Piece>)
    requires LeftmostShortest(ps, s, m)
    ensures Substitute(s, m, render) == Emit(ps, m, render)
  {
    SegmentationUnique(Segment(s, m), ps, s, m);
  }

  /** A leading stretch without `$` is copied unchanged. */
  lemma {:induction false} SubstituteDollarFreePrefix(a: string, b: string, m: Mode, render: Renderer)
    requires '$' !in a
    ensures Substitute(a + b, m, render) == a + Substitute(b, m, render)
    decreases |a|
  {
    if a != [] {
      var s := a + b;
      assert s[0] == a[0] && a[0] in a;
      assert SpanAt(s, m).None?;
      assert s[1..] == a[1..] + b;
      SubstituteDollarFreePrefix(a[1..], b, m, render);
      assert a == [a[0]] + a[1..];
    } else {
      assert a + b == b;
    }
  }

  /** A span with `$`-free content at the start is rendered, and the scan resumes after it. */
  lemma {:induction false} SpanThenRest(x: string, b: string, m: Mode, render: Renderer)
    requires x != [] && '$' !in x && forall k :: 0 <= k < |x| ==> Dot(m, x[k])
    ensures Substitute(Delim(m) + x + Delim(m) + b, m, render) == render(x, m) + Substitute(b, m, render)
  {
    var d := Delim(m);
    var s := d + x + d + b;
    var j := |d| + |x|;
    assert s[..|d|] == d && s[j..j + |d|] == d && s[|d|..j] == x;
    assert ClosesAt(s, m, j);
    forall j' | j' < j
      ensures !ClosesAt(s, m, j')
    {
      if |d| < j' && j' + |d| <= |s| {
        assert s[j'] == x[j' - |d|] && x[j' - |d|] in x;
        assert s[j'..j' + |d|][0] == s[j'];
      }
    }
    assert SpanAt(s, m) == Some(j);
    assert s[j + |d|..] == b;
  }

  /** The block scan copies a `$` that does not open a `$$`. */
  lemma {:induction false} BlockSkipsLoneDollar(b: string, render: Renderer)
    requires b == [] || b[0] != '$'
    ensures Substitute("$" + b, Block, render) == "$" + Substitute(b, Block, render)
  {
    var s := "$" + b;
    assert |s| >= 2 ==> s[..2][1] != '$';
    assert SpanAt(s, Block).None?;
    assert s[1..] == b;
  }

  /** Text without `$` is left as it is. */
  lemma {:induction false} DollarFreeUnchanged(s: string, m: Mode, render: Renderer)
    requires '$' !in s
    ensures Substitute(s, m, render) == s
  {
    SubstituteDollarFreePrefix(s, [], m, render);
    assert s + [] == s;
  }
}
