/**
 * The math substitutor, `format_latex_math_blocks`: reject an odd number of `$$` in
 * the whole text, substitute block spans everywhere (code fences included), split
 * into lines, classify them, and in each prose line reject an odd number of `$` and
 * substitute inline spans; verbatim lines pass through; join the lines again.
 */
module LatexMath {
  import opened Wrappers
  import opened PyStr
  import opened Fences
  import opened MathSpans

  /** The two `ValueError`s the conversion raises; the inline one is raised while looking at `line`. */
  datatype Error = OddBlockDelimiters | OddInlineDelimiters(line: string)

  /** The message of the raised `ValueError` as the source writes it: a plain literal, so `{line}` is not filled in. */
  function Message(e: Error): string
  {
    match e
    case OddBlockDelimiters => "The number of '$$' symbols is odd."
    case OddInlineDelimiters(_) => "The number of '$' symbols is odd: {line}"
  }

  /**
   * As written, the inline message is the same whichever line is unbalanced: two
   * different lines, `a $ b` and `$$$`, are reported alike.
   */
  lemma {:induction false} MessageOmitsLine()
    ensures forall a, b :: Message(OddInlineDelimiters(a)) == Message(OddInlineDelimiters(b))
    ensures "a $ b" != "$$$" && Message(OddInlineDelimiters("a $ b")) == Message(OddInlineDelimiters("$$$"))
  {
  }

  const InlinePrefix := "The number of '$' symbols is odd: "

  /** The message with the offending line filled in, as the `{line}` placeholder intends. */
  function IntendedMessage(e: Error): string
  {
    match e
    case OddBlockDelimiters => "The number of '$$' symbols is odd."
    case OddInlineDelimiters(line) => InlinePrefix + line
  }

  /** The intended message names the line: different lines give different messages. */
  lemma {:induction false} IntendedMessageNamesLine(a: string, b: string)
    requires IntendedMessage(OddInlineDelimiters(a)) == IntendedMessage(OddInlineDelimiters(b))
    ensures a == b
  {
    var n := |InlinePrefix|;
    assert a == IntendedMessage(OddInlineDelimiters(a))[n..];
    assert b == IntendedMessage(OddInlineDelimiters(b))[n..];
  }

  /** A prose slot whose line holds an odd number of `$`. */
  predicate OddProse(y: Yield)
  {
    y.0.Some? && Count(y.0.value, "$") % 2 != 0
  }

  /** The loop body on one pair: verbatim lines pass; prose lines are checked, then get the inline pass. */
  function ConvertLine(y: Yield, render: Renderer): Result<string, Error>
    requires y.0.Some? || y.1.Some?
  {
    if y.0.None? then Success(y.1.value)
    else if Count(y.0.value, "$") % 2 != 0 then Failure(OddInlineDelimiters(y.0.value))
    else Success(Substitute(y.0.value, Inline, render))
  }

  /** The loop over all pairs: the output lines in order, or the first error raised. */
  function ConvertLines(ys: seq<Yield>, render: Renderer): Result<seq<string>, Error>
    requires forall i :: 0 <= i < |ys| ==> ys[i].0.Some? || ys[i].1.Some?
    decreases |ys|
  {
    if ys == [] then Success([])
    else
      var init := ys[..|ys| - 1];
      match ConvertLines(init, render)
      case Failure(e) => Failure(e)
      case Success(out) =>
        match ConvertLine(ys[|ys| - 1], render)
        case Failure(e) => Failure(e)
        case Success(line) => Success(out + [line])
  }

  /** The loop completes exactly when every prose line holds an even number of `$`. */
  lemma {:induction false} ConvertLinesSucceeds(ys: seq<Yield>, render: Renderer)
    requires forall i :: 0 <= i < |ys| ==> ys[i].0.Some? || ys[i].1.Some?
    ensures ConvertLines(ys, render).Success? <==> forall i :: 0 <= i < |ys| ==> !OddProse(ys[i])
    decreases |ys|
  {
    if ys != [] {
      var init := ys[..|ys| - 1];
      var last := ys[|ys| - 1];
      assert forall i :: 0 <= i < |init| ==> init[i] == ys[i];
      ConvertLinesSucceeds(init, render);
      assert ConvertLines(ys, render).Success?
        <==> ConvertLines(init, render).Success? && ConvertLine(last, render).Success?;
      assert ConvertLine(last, render).Success? <==> !OddProse(last);
      assert (forall i :: 0 <= i < |ys| ==> !OddProse(ys[i]))
        <==> (forall i :: 0 <= i < |init| ==> !OddProse(init[i])) && !OddProse(last);
    }
  }

  /** On success there is one output line per pair: verbatim lines unchanged, prose lines after the inline pass. */
  lemma {:induction false} ConvertLinesOutput(ys: seq<Yield>, render: Renderer)
    requires forall i :: 0 <= i < |ys| ==> ys[i].0.Some? || ys[i].1.Some?
    requires ConvertLines(ys, render).Success?
    ensures var out := ConvertLines(ys, render).value;
      |out| == |ys|
      && (forall i :: 0 <= i < |ys| && ys[i].0.None? ==> out[i] == ys[i].1.value)
      && (forall i :: 0 <= i < |ys| && ys[i].0.Some? ==> out[i] == Substitute(ys[i].0.value, Inline, render))
    decreases |ys|
  {
    if ys != [] {
      var init := ys[..|ys| - 1];
      ConvertLinesOutput(init, render);
      assert forall i :: 0 <= i < |init| ==> init[i] == ys[i];
    }
  }

  /** On failure the error names the first prose line with an odd number of `$`. */
  lemma {:induction false} ConvertLinesFailure(ys: seq<Yield>, render: Renderer)
    requires forall i :: 0 <= i < |ys| ==> ys[i].0.Some? || ys[i].1.Some?
    requires ConvertLines(ys, render).Failure?
    ensures exists i :: 0 <= i < |ys| && OddProse(ys[i])
              && ConvertLines(ys, render).error == OddInlineDelimiters(ys[i].0.value)
              && forall k :: 0 <= k < i ==> !OddProse(ys[k])
    decreases |ys|
  {
    var init := ys[..|ys| - 1];
    assert forall i :: 0 <= i < |init| ==> init[i] == ys[i];
    if ConvertLines(init, render).Failure? {
      ConvertLinesFailure(init, render);
    } else {
      ConvertLinesSucceeds(init, render);
      assert OddProse(ys[|ys| - 1]);
    }
  }

  /** With every earlier prose line balanced, an unbalanced line `i` is the one reported. */
  lemma {:induction false} FirstOddLineReported(ys: seq<Yield>, i: nat, render: Renderer)
    requires forall k :: 0 <= k < |ys| ==> ys[k].0.Some? || ys[k].1.Some?
    requires i < |ys| && OddProse(ys[i])
    requires forall k :: 0 <= k < i ==> !OddProse(ys[k])
    ensures ConvertLines(ys, render) == Failure(OddInlineDelimiters(ys[i].0.value))
  {
    ConvertLinesSucceeds(ys, render);
    ConvertLinesFailure(ys, render);
    var r := ConvertLines(ys, render);
    var j :| 0 <= j < |ys| && OddProse(ys[j]) && r.error == OddInlineDelimiters(ys[j].0.value)
             && forall k :: 0 <= k < j ==> !OddProse(ys[k]);
    assert j == i;
  }

  lemma {:induction false} ConvertLinesStep(ys: seq<Yield>, i: nat, render: Renderer)
    requires forall k :: 0 <= k < |ys| ==> ys[k].0.Some? || ys[k].1.Some?
    requires i < |ys| && ConvertLines(ys[..i], render).Success? && !OddProse(ys[i])
    ensures ConvertLines(ys[..i + 1], render)
            == Success(ConvertLines(ys[..i], render).value + [ConvertLine(ys[i], render).value])
  {
    assert ys[..i + 1][..i] == ys[..i];
  }

  /** The output lines before joining, or the error raised. */
  function FormatLines(text: string, render: Renderer): Result<seq<string>, Error>
  {
    if Count(text, "$$") % 2 != 0 then Failure(OddBlockDelimiters)
    else ConvertLines(Classify(Split(Substitute(text, Block, render))), render)
  }

  /** The result of `format_latex_math_blocks(text)`: the converted text, or the `ValueError` raised. */
  function FormatLatexMath(text: string, render: Renderer): Result<string, Error>
  {
    match FormatLines(text, render)
    case Failure(e) => Failure(e)
    case Success(out) => Success(Join(out))
  }

  /** `format_latex_math_blocks`, with the renderer passed in. */
  method FormatLatexMathBlocks(text: string, render: Renderer) returns (r: Result<string, Error>)
    ensures r == FormatLatexMath(text, render)
  {
    var doubleDollarCount := Count(text, "$$");
    if doubleDollarCount % 2 != 0 {
      return Failure(OddBlockDelimiters);
    }
    var blocked := Substitute(text, Block, render);
    var lines := Split(blocked);
    var ys := SplitCodeBlockIter(lines);
    var out: seq<string> := [];
    for i := 0 to |ys|
      invariant ConvertLines(ys[..i], render) == Success(out)
    {
      var (line, codeBlockLine) := ys[i];
      if line.None? {
        ConvertLinesStep(ys, i, render);
        out := out + [codeBlockLine.value];
      } else {
        var singleDollarCount := Count(line.value, "$");
        if singleDollarCount % 2 != 0 {
          ConvertLinesSucceeds(ys[..i], render);
          assert forall k :: 0 <= k < i ==> ys[..i][k] == ys[k];
          FirstOddLineReported(ys, i, render);
          return Failure(OddInlineDelimiters(line.value));
        }
        ConvertLinesStep(ys, i, render);
        out := out + [Substitute(line.value, Inline, render)];
      }
    }
    assert ys[..|ys|] == ys;
    return Success(Join(out));
  }

  /** The conversion fails on the `$$` count exactly when that count is odd, wherever the `$$` stand. */
  lemma {:induction false} OddBlockCountRejects(text: string, render: Renderer)
    ensures FormatLatexMath(text, render) == Failure(OddBlockDelimiters) <==> Count(text, "$$") % 2 != 0
  {
    if Count(text, "$$") % 2 == 0 {
      var lines := Split(Substitute(text, Block, render));
      if ConvertLines(Classify(lines), render).Failure? {
        ConvertLinesFailure(Classify(lines), render);
      }
    }
  }

  /**
   * With an even `$$` count, the conversion fails exactly when some prose line of the
   * block-substituted text has an odd `$` count, and it reports the first such line.
   */
  lemma {:induction false} OddProseLineRejects(text: string, render: Renderer)
    requires Count(text, "$$") % 2 == 0
    ensures var ys := Classify(Split(Substitute(text, Block, render)));
      (FormatLatexMath(text, render).Failure? <==> exists i :: 0 <= i < |ys| && OddProse(ys[i]))
      && (FormatLatexMath(text, render).Failure? ==>
            exists i :: 0 <= i < |ys| && OddProse(ys[i])
                        && FormatLatexMath(text, render).error == OddInlineDelimiters(ys[i].0.value)
                        && forall k :: 0 <= k < i ==> !OddProse(ys[k]))
  {
    var ys := Classify(Split(Substitute(text, Block, render)));
    var r := ConvertLines(ys, render);
    assert FormatLines(text, render) == r;
    assert FormatLatexMath(text, render).Failure? == r.Failure?;
    ConvertLinesSucceeds(ys, render);
    if r.Failure? {
      ConvertLinesFailure(ys, render);
      var i :| 0 <= i < |ys| && OddProse(ys[i]) && r.error == OddInlineDelimiters(ys[i].0.value)
               && forall k :: 0 <= k < i ==> !OddProse(ys[k]);
      assert FormatLatexMath(text, render) == Failure(r.error);
    }
  }

  /** The loop over the classified lines keeps verbatim lines and converts prose lines. */
  lemma {:induction false} ClassifiedOutput(lines: seq<string>, render: Renderer)
    requires ConvertLines(Classify(lines), render).Success?
    ensures var out := ConvertLines(Classify(lines), render).value;
      |out| == |lines|
      && (forall i :: 0 <= i < |lines| && Classify(lines)[i].1.Some? ==> out[i] == lines[i])
      && (forall i :: 0 <= i < |lines| && Classify(lines)[i].0.Some? ==> out[i] == Substitute(lines[i], Inline, render))
  {
    var ys := Classify(lines);
    var out := ConvertLines(ys, render).value;
    ConvertLinesOutput(ys, render);
    forall i | 0 <= i < |lines| && ys[i].1.Some?
      ensures out[i] == lines[i]
    {
      assert Holds(ys[i], lines[i]);
    }
    forall i | 0 <= i < |lines| && ys[i].0.Some?
      ensures out[i] == Substitute(lines[i], Inline, render)
    {
      assert Holds(ys[i], lines[i]);
    }
  }

  /**
   * On success the output is the join of one line per line of the block-substituted
   * text: verbatim lines unchanged, prose lines after the inline pass.
   */
  lemma {:induction false} LinesKeptOrConverted(text: string, render: Renderer)
    requires FormatLines(text, render).Success?
    ensures var lines := Split(Substitute(text, Block, render));
      var out := FormatLines(text, render).value;
      FormatLatexMath(text, render) == Success(Join(out)) && |out| == |lines|
      && (forall i :: 0 <= i < |lines| && Classify(lines)[i].1.Some? ==> out[i] == lines[i])
      && (forall i :: 0 <= i < |lines| && Classify(lines)[i].0.Some? ==>
            out[i] == Substitute(lines[i], Inline, render))
  {
    var lines := Split(Substitute(text, Block, render));
    assert FormatLines(text, render) == ConvertLines(Classify(lines), render);
    ClassifiedOutput(lines, render);
  }

  /** Lines without `$` are all kept as they are, whether verbatim or prose. */
  lemma {:induction false} DollarFreeLines(lines: seq<string>, render: Renderer)
    requires forall i :: 0 <= i < |lines| ==> '$' !in lines[i]
    ensures ConvertLines(Classify(lines), render) == Success(lines)
  {
    var ys := Classify(lines);
    forall i | 0 <= i < |ys|
      ensures !OddProse(ys[i])
    {
      assert Holds(ys[i], lines[i]);
      if ys[i].0.Some? {
        assert Count(lines[i], "$") == 0;
      }
    }
    ConvertLinesSucceeds(ys, render);
    ConvertLinesOutput(ys, render);
    var out := ConvertLines(ys, render).value;
    forall i | 0 <= i < |lines|
      ensures out[i] == lines[i]
    {
      assert Holds(ys[i], lines[i]);
      if ys[i].0.Some? {
        DollarFreeUnchanged(lines[i], Inline, render);
      }
    }
    assert out == lines;
  }

  /** When the block pass leaves no `$`, the result is the block-substituted text itself. */
  lemma {:induction false} DollarFreeAfterBlocks(text: string, render: Renderer)
    requires Count(text, "$$") % 2 == 0
    requires '$' !in Substitute(text, Block, render)
    ensures FormatLatexMath(text, render) == Success(Substitute(text, Block, render))
  {
    var blocked := Substitute(text, Block, render);
    var lines := Split(blocked);
    SplitKeepsOut(blocked, '$');
    DollarFreeLines(lines, render);
    assert FormatLines(text, render) == ConvertLines(Classify(lines), render);
  }

  predicate AllVerbatim(ys: seq<Yield>)
  {
    forall i :: 0 <= i < |ys| ==> ys[i].0.None?
  }

  /** When every line after the block pass is verbatim, the result is the block-substituted text, whatever `$` it holds. */
  lemma {:induction false} AllVerbatimAfterBlocks(text: string, render: Renderer)
    requires Count(text, "$$") % 2 == 0
    requires AllVerbatim(Classify(Split(Substitute(text, Block, render))))
    ensures FormatLatexMath(text, render) == Success(Substitute(text, Block, render))
  {
    var blocked := Substitute(text, Block, render);
    var lines := Split(blocked);
    var ys := Classify(lines);
    assert forall i :: 0 <= i < |ys| ==> !OddProse(ys[i]);
    ConvertLinesSucceeds(ys, render);
    ConvertLinesOutput(ys, render);
    assert FormatLines(text, render) == ConvertLines(ys, render);
    var out := ConvertLines(ys, render).value;
    forall i | 0 <= i < |lines|
      ensures out[i] == lines[i]
    {
      assert Holds(ys[i], lines[i]);
    }
    assert out == lines;
  }

  /** A text without `$` comes back unchanged. */
  lemma {:induction false} DollarFreeIdentity(text: string, render: Renderer)
    requires '$' !in text
    ensures FormatLatexMath(text, render) == Success(text)
  {
    DollarFreeUnchanged(text, Block, render);
    DollarFreeAfterBlocks(text, render);
  }

  /** Converting an output that holds no `$` again changes nothing. */
  lemma {:induction false} Idempotent(text: string, render: Renderer)
    ensures var r := FormatLatexMath(text, render);
      r.Success? && '$' !in r.value ==> FormatLatexMath(r.value, render) == r
  {
    var r := FormatLatexMath(text, render);
    if r.Success? && '$' !in r.value {
      DollarFreeIdentity(r.value, render);
    }
  }
}
