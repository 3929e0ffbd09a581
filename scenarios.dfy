/** Whole conversions of small documents, for any renderer. */
module Scenarios {
  import opened Wrappers
  import opened PyStr
  import opened Fences
  import opened MathSpans
  import opened LatexMath

  lemma {:induction false} InlineRegroup(a: string, x: string, b: string)
    ensures a + "$" + x + "$" + b == a + ("$" + (x + ("$" + b)))
  {
  }

  lemma {:induction false} InlineLineDoubleCount(a: string, x: string, b: string)
    requires '$' !in a && '$' !in x && '$' !in b && x != []
    ensures Count(a + "$" + x + "$" + b, "$$") == 0
  {
    var tail := "$" + b;
    var rest := "$" + (x + tail);
    InlineRegroup(a, x, b);
    CountSkips(a, rest, "$$");
    assert rest[..2][1] == x[0] && x[0] in x;
    assert rest[1..] == x + tail;
    CountSkips(x, tail, "$$");
    if b != [] {
      assert tail[..2][1] == b[0] && b[0] in b;
    }
    assert tail[1..] == b;
  }

  lemma {:induction false} InlineLineSingleCount(a: string, x: string, b: string)
    requires '$' !in a && '$' !in x && '$' !in b
    ensures Count(a + "$" + x + "$" + b, "$") == 2
  {
    var text := a + "$" + x + "$" + b;
    CountChar(text, '$');
    assert multiset(text) == multiset(a) + multiset("$") + multiset(x) + multiset("$") + multiset(b);
    assert multiset(a)['$'] == 0 && multiset(x)['$'] == 0 && multiset(b)['$'] == 0;
  }

  lemma {:induction false} InlineLineBlockPass(a: string, x: string, b: string, render: Renderer)
    requires '$' !in a && '$' !in x && '$' !in b && x != []
    ensures Substitute(a + "$" + x + "$" + b, Block, render) == a + "$" + x + "$" + b
  {
    var tail := "$" + b;
    var rest := "$" + (x + tail);
    InlineRegroup(a, x, b);
    SubstituteDollarFreePrefix(a, rest, Block, render);
    BlockSkipsLoneDollar(x + tail, render);
    SubstituteDollarFreePrefix(x, tail, Block, render);
    BlockSkipsLoneDollar(b, render);
    DollarFreeUnchanged(b, Block, render);
  }

  lemma {:induction false} InlineLinePass(a: string, x: string, b: string, render: Renderer)
    requires '$' !in a && '$' !in x && '$' !in b && '\n' !in x && x != []
    ensures Substitute(a + "$" + x + "$" + b, Inline, render) == a + render(x, Inline) + b
  {
    var rest := Delim(Inline) + x + Delim(Inline) + b;
    assert a + "$" + x + "$" + b == a + rest;
    SubstituteDollarFreePrefix(a, rest, Inline, render);
    SpanThenRest(x, b, Inline, render);
    DollarFreeUnchanged(b, Inline, render);
  }

  lemma {:induction false} SingleProseLine(line: string)
    requires FenceTag(line).None?
    ensures Classify([line]) == [(Some(line), None)]
  {
    ClassifyAt([line], 0);
    assert [line][..0] == [];
  }

  /** A document of one balanced prose line that the block pass leaves alone gets only the inline pass. */
  lemma {:induction false} OneProseLine(text: string, render: Renderer)
    requires Count(text, "$$") == 0 && Substitute(text, Block, render) == text
    requires '\n' !in text && FenceTag(text).None? && Count(text, "$") % 2 == 0
    ensures FormatLatexMath(text, render) == Success(Substitute(text, Inline, render))
  {
    SplitOne(text);
    SingleProseLine(text);
    var ys := [(Some(text), None)];
    assert !OddProse(ys[0]);
    ConvertLinesSucceeds(ys, render);
    ConvertLinesOutput(ys, render);
    assert FormatLines(text, render) == ConvertLines(ys, render);
  }

  /** A prose line with one inline span: the span is rendered inline and the rest is kept. */
  lemma {:induction false} InlineSpanInProse(a: string, x: string, b: string, render: Renderer)
    requires '$' !in a && '$' !in x && '$' !in b
    requires '\n' !in a && '\n' !in x && '\n' !in b
    requires x != [] && FenceTag(a + "$" + x + "$" + b).None?
    ensures FormatLatexMath(a + "$" + x + "$" + b, render) == Success(a + render(x, Inline) + b)
  {
    var text := a + "$" + x + "$" + b;
    InlineLineDoubleCount(a, x, b);
    InlineLineSingleCount(a, x, b);
    InlineLineBlockPass(a, x, b, render);
    assert '\n' !in text;
    InlineLinePass(a, x, b, render);
    OneProseLine(text, render);
  }

  lemma {:induction false} InlineExample(render: Renderer)
    ensures FormatLatexMath("Inline $x+1$ math.", render) == Success("Inline " + render("x+1", Inline) + " math.")
  {
    assert "Inline $x+1$ math." == "Inline " + "$" + "x+1" + "$" + " math.";
    assert "Inline $x+1$ math."[..3] == "Inl";
    InlineSpanInProse("Inline ", "x+1", " math.", render);
  }

  /** A block span across line breaks is replaced as a whole. */
  lemma {:induction false} BlockSpanAcrossLines(x: string, render: Renderer)
    requires x != [] && '$' !in x && '$' !in render(x, Block)
    ensures FormatLatexMath("$$" + x + "$$", render) == Success(render(x, Block))
  {
    var text := "$$" + x + "$$";
    assert text == "$$" + (x + "$$");
    CountLeading("$$", x + "$$");
    CountSkips(x, "$$", "$$");
    CountLeading("$$", []);
    assert "$$" + [] == "$$";
    assert Count(text, "$$") == 2;
    SpanThenRest(x, [], Block, render);
    assert Delim(Block) + x + Delim(Block) + [] == text;
    assert Substitute([], Block, render) == [];
    assert render(x, Block) + [] == render(x, Block);
    DollarFreeAfterBlocks(text, render);
  }

  lemma {:induction false} BlockExample(render: Renderer)
    requires '$' !in render("\na=1\n", Block)
    ensures FormatLatexMath("$$\na=1\n$$", render) == Success(render("\na=1\n", Block))
  {
    assert "$$\na=1\n$$" == "$$" + "\na=1\n" + "$$";
    BlockSpanAcrossLines("\na=1\n", render);
  }

  lemma {:induction false} FencedSpanCount(x: string)
    requires x != [] && '$' !in x
    ensures Count("```\n" + "$$" + x + "$$" + "\n```", "$$") == 2
  {
    var close := "\n```";
    assert "```\n" + "$$" + x + "$$" + close == "```\n" + ("$$" + (x + ("$$" + close)));
    CountSkips("```\n", "$$" + (x + ("$$" + close)), "$$");
    CountLeading("$$", x + ("$$" + close));
    CountSkips(x, "$$" + close, "$$");
    CountLeading("$$", close);
  }

  lemma {:induction false} FencedSpanBlockPass(x: string, render: Renderer)
    requires x != [] && '$' !in x
    ensures Substitute("```\n" + "$$" + x + "$$" + "\n```", Block, render) == "```\n" + render(x, Block) + "\n```"
  {
    var close := "\n```";
    assert "```\n" + "$$" + x + "$$" + close == "```\n" + (Delim(Block) + x + Delim(Block) + close);
    SubstituteDollarFreePrefix("```\n", Delim(Block) + x + Delim(Block) + close, Block, render);
    SpanThenRest(x, close, Block, render);
    DollarFreeUnchanged(close, Block, render);
  }

  lemma {:induction false} FencedLineSplit(r: string)
    requires '\n' !in r
    ensures Split("```\n" + r + "\n```") == ["```", r, "```"]
  {
    FencedLineRegroup(r);
    SplitThree("```", r, "```");
  }

  lemma {:induction false} FencedLineRegroup(r: string)
    ensures "```\n" + r + "\n```" == "```" + "\n" + (r + "\n" + "```")
  {
  }

  lemma {:induction false} FencedLineVerbatim(r: string)
    ensures AllVerbatim(Classify(["```", r, "```"]))
  {
    var lines := ["```", r, "```"];
    assert "```"[..3] == "```";
    assert FenceTag("```") == Some([]);
    assert lines[..1] == ["```"];
    assert [lines[0]][..0] == [];
    assert InCodeAfter(lines[..1]);
    forall i | 0 <= i < 3
      ensures Classify(lines)[i].0.None?
    {
      ClassifyAt(lines, i);
    }
  }

  /** Block spans are substituted before fences are seen, so one inside a code block is rendered too. */
  lemma {:induction false} BlockSpanInsideFence(x: string, render: Renderer)
    requires x != [] && '$' !in x && '\n' !in render(x, Block)
    ensures FormatLatexMath("```\n" + "$$" + x + "$$" + "\n```", render)
            == Success("```\n" + render(x, Block) + "\n```")
  {
    var text := "```\n" + "$$" + x + "$$" + "\n```";
    FencedSpanCount(x);
    FencedSpanBlockPass(x, render);
    FencedLineSplit(render(x, Block));
    FencedLineVerbatim(render(x, Block));
    AllVerbatimAfterBlocks(text, render);
  }

  lemma {:induction false} ThreeLinesCount(l0: string, l1: string, y: string)
    requires '$' !in l0 && '$' !in l1 && '$' !in y
    ensures Count(l0 + "\n" + l1 + "\n$" + y, "$$") == 0
  {
    var head := l0 + "\n" + l1 + "\n";
    var last := "$" + y;
    assert l0 + "\n" + l1 + "\n$" + y == head + last;
    assert '$' !in head;
    CountSkips(head, last, "$$");
    if y != [] {
      assert last[..2][1] == y[0] && y[0] in y;
    }
    assert last[1..] == y;
  }

  lemma {:induction false} ThreeLinesBlockPass(l0: string, l1: string, y: string, render: Renderer)
    requires '$' !in l0 && '$' !in l1 && '$' !in y
    ensures Substitute(l0 + "\n" + l1 + "\n$" + y, Block, render) == l0 + "\n" + l1 + "\n$" + y
  {
    var head := l0 + "\n" + l1 + "\n";
    var last := "$" + y;
    assert l0 + "\n" + l1 + "\n$" + y == head + last;
    assert '$' !in head;
    SubstituteDollarFreePrefix(head, last, Block, render);
    BlockSkipsLoneDollar(y, render);
    DollarFreeUnchanged(y, Block, render);
  }

  lemma {:induction false} ThreeLinesSplit(l0: string, l1: string, y: string)
    requires '\n' !in l0 && '\n' !in l1 && '\n' !in y
    ensures Split(l0 + "\n" + l1 + "\n$" + y) == [l0, l1, "$" + y]
  {
    LastLine(l0, l1, y);
    SplitThree(l0, l1, "$" + y);
  }

  lemma {:induction false} LastLine(l0: string, l1: string, y: string)
    requires '\n' !in y
    ensures l0 + "\n" + l1 + "\n$" + y == l0 + "\n" + (l1 + "\n" + ("$" + y))
    ensures '\n' !in "$" + y
  {
    var x := l0 + "\n" + l1;
    assert x + "\n$" + y == x + "\n" + ("$" + y);
    assert x + "\n" + ("$" + y) == l0 + "\n" + (l1 + "\n" + ("$" + y));
    assert "$" + y == ['$'] + y;
  }

  lemma {:induction false} SplitThree(l0: string, l1: string, l2: string)
    requires '\n' !in l0 && '\n' !in l1 && '\n' !in l2
    ensures Split(l0 + "\n" + (l1 + "\n" + l2)) == [l0, l1, l2]
  {
    SplitOne(l2);
    SplitCons(l1, l2);
    SplitCons(l0, l1 + "\n" + l2);
  }

  lemma {:induction false} ThreeLines(l0: string, l1: string, y: string, render: Renderer)
    requires '\n' !in l0 && '\n' !in l1 && '\n' !in y
    requires '$' !in l0 && '$' !in l1 && '$' !in y
    ensures Count(l0 + "\n" + l1 + "\n$" + y, "$$") == 0
    ensures Substitute(l0 + "\n" + l1 + "\n$" + y, Block, render) == l0 + "\n" + l1 + "\n$" + y
    ensures Split(l0 + "\n" + l1 + "\n$" + y) == [l0, l1, "$" + y]
  {
    ThreeLinesCount(l0, l1, y);
    ThreeLinesBlockPass(l0, l1, y, render);
    ThreeLinesSplit(l0, l1, y);
  }

  lemma {:induction false} BareFence()
    ensures FenceTag("```") == Some([])
  {
    assert "```"[..3] == "```";
  }

  lemma {:induction false} TaggedFence(tag: string)
    requires tag != [] && !IsSpace(tag[0])
    ensures FenceTag("```" + tag) == Some(tag)
  {
    var line := "```" + tag;
    assert line[..3] == "```" && line[3..] == tag;
  }

  lemma {:induction false} TaggedFenceLines(tag: string, y: string)
    requires tag != [] && !IsSpace(tag[0])
    ensures AllVerbatim(Classify(["```", "```" + tag, "$" + y]))
  {
    var lines := ["```", "```" + tag, "$" + y];
    BareFence();
    TaggedFence(tag);
    assert lines[..2][..1] == lines[..1] == ["```"];
    assert [lines[0]][..0] == [];
    assert InCodeAfter(lines[..1]);
    assert InCodeAfter(lines[..2]);
    forall i | 0 <= i < 3
      ensures Classify(lines)[i].0.None?
    {
      ClassifyAt(lines, i);
    }
  }

  /** A tagged fence inside an open block leaves it open: the unbalanced line after it stays verbatim. */
  lemma {:induction false} TaggedFenceKeepsBlockOpen(tag: string, y: string, render: Renderer)
    requires tag != [] && !IsSpace(tag[0]) && '\n' !in tag && '$' !in tag
    requires '\n' !in y && '$' !in y
    ensures FormatLatexMath("```\n```" + tag + "\n$" + y, render) == Success("```\n```" + tag + "\n$" + y)
  {
    var text := "```\n```" + tag + "\n$" + y;
    assert text == "```" + "\n" + ("```" + tag) + "\n$" + y;
    ThreeLines("```", "```" + tag, y, render);
    TaggedFenceLines(tag, y);
    AllVerbatimAfterBlocks(text, render);
  }

  lemma {:induction false} BareFencePairLines(y: string)
    requires '$' !in y
    ensures var ys := Classify(["```", "```", "$" + y]);
      !OddProse(ys[0]) && !OddProse(ys[1]) && OddProse(ys[2]) && ys[2].0 == Some("$" + y)
  {
    var lines := ["```", "```", "$" + y];
    var ys := Classify(lines);
    BareFence();
    assert ("$" + y)[..0] == [];
    assert lines[..2][..1] == lines[..1] == ["```"];
    assert [lines[0]][..0] == [];
    assert InCodeAfter(lines[..1]);
    assert !InCodeAfter(lines[..2]);
    ClassifyAt(lines, 0);
    ClassifyAt(lines, 1);
    ClassifyAt(lines, 2);
    assert FenceTag("$" + y).None? by {
      if |"$" + y| >= 3 {
        assert ("$" + y)[..3][0] == '$';
      }
    }
    assert ys[2] == (Some("$" + y), None);
    assert Count("$" + y, "$") == 1 by {
      CountChar("$" + y, '$');
      assert multiset("$" + y) == multiset("$") + multiset(y);
    }
  }

  /** With a bare fence in its place the block closes, and the same line is rejected as unbalanced prose. */
  lemma {:induction false} BareFenceClosesBlock(y: string, render: Renderer)
    requires '\n' !in y && '$' !in y
    ensures FormatLatexMath("```\n```\n$" + y, render) == Failure(OddInlineDelimiters("$" + y))
  {
    var text := "```\n```\n$" + y;
    var lines := ["```", "```", "$" + y];
    assert text == "```" + "\n" + "```" + "\n$" + y;
    ThreeLines("```", "```", y, render);
    BareFencePairLines(y);
    FirstOddLineReported(Classify(lines), 2, render);
  }

  lemma {:induction false} FencedDoubleCount(tag: string)
    requires '$' !in tag
    ensures Count("```" + tag + "\n$$\n```", "$$") == 1
  {
    assert "```" + tag + "\n$$\n```" == ("```" + tag + "\n") + ("$$" + "\n```");
    CountSkips("```" + tag + "\n", "$$" + "\n```", "$$");
    CountLeading("$$", "\n```");
  }

  lemma {:induction false} FencedOddCountRejected(tag: string, render: Renderer)
    requires Count("```" + tag + "\n$$\n```", "$$") == 1
    ensures FormatLatexMath("```" + tag + "\n$$\n```", render) == Failure(OddBlockDelimiters)
  {
    var text := "```" + tag + "\n$$\n```";
    assert Count(text, "$$") % 2 != 0;
    OddBlockCountRejects(text, render);
  }

  /** An unbalanced `$$` inside a code block is rejected all the same: the count covers the whole text. */
  lemma {:induction false} OddBlockInsideFence(tag: string, render: Renderer)
    requires '$' !in tag
    ensures FormatLatexMath("```" + tag + "\n$$\n```", render) == Failure(OddBlockDelimiters)
  {
    FencedDoubleCount(tag);
    FencedOddCountRejected(tag, render);
  }
}
