# to-moodle-html: the LaTeX math substitution pass, in Dafny

`to_moodle_html` turns a Markdown document that uses `$...$` and `$$...$$` math into
HTML for a Moodle rich-text editor. Before the Markdown goes to the HTML renderer,
`format_latex_math_blocks` replaces every math span with MathML. This project models
that pass, the fence-aware line classifier it uses, and the small rule that sets the
style of `<pre>` elements. It proves what these do.

- `wrappers.dfy`, module `Wrappers`: `Option` (Python's `None` slots) and `Result`
  (a return value or a raised `ValueError`).
- `pystr.dfy`, module `PyStr`: the Python `str` operations the pass relies on. These
  are `str.count` (non-overlapping, left to right), `split("\n")`, `"\n".join`,
  `rstrip()`, and the Unicode whitespace class used by `\s` and `str.isspace`.
- `fences.dfy`, module `Fences`: `split_code_block_iter`. `Classify` is the
  specification function: one `(prose, code)` pair per line, with the state
  `InCodeAfter` folded over the earlier lines. `SplitCodeBlockIter` is the loop
  itself, with its boolean `inCode`, and it is proved equal to `Classify`.
- `math_spans.dfy`, module `MathSpans`: the two `re.sub` calls, written as one
  leftmost-shortest scanner.
  - `FindClose` is the lazy `.+?` search. `Segment` cuts the text into copied
    characters and matched spans. `Substitute` emits the result.
  - `LeftmostShortest` is a declarative definition of the segmentation that
    `re.sub` performs. `Segment` is proved to satisfy it, and no other segmentation
    does.
  - The block pattern uses DOTALL. The inline `.` does not match `\n`.
- `latex_math.dfy`, module `LatexMath`: `format_latex_math_blocks`. `FormatLatexMath`
  is the specification function, and `FormatLatexMathBlocks` is the method with the
  source's loop over the classified lines. The module also holds the error cases,
  the identity and idempotence on `$`-free text, and the facts about which lines are
  kept or converted.
- `scenarios.dfy`, module `Scenarios`: whole conversions of small documents, for any
  renderer.
- `pre_style.dfy`, module `PreStyle`: the `style` merge for `<pre>` elements.

The renderer, latex2mathml's `convert(s, display=...)`, is a parameter
`render: (string, Mode) -> string`. The general lemmas assume nothing about it and
hold for every renderer. Three scenario lemmas assume something about the rendered
block:

- `Scenarios.BlockSpanAcrossLines` and `Scenarios.BlockExample` assume it contains
  no `$`.
- `Scenarios.BlockSpanInsideFence` assumes it contains no line break.

Facts about the code that the model keeps:

- A fence must start at column 0. `re.match(r"^```\s*(.*)", line)` anchors the
  backticks at the start of the line.
- The error texts are the literals at lines 46 and 64. The second is not an
  f-string, so `{line}` is not filled in.
- `split("\n")` followed by `"\n".join` reproduces the text exactly, including any
  `\r`. Only the lines themselves change.

## Model

| member | source | states |
|---|---|---|
| PyStr.Count | src/to_moodle_html/to_moodle_html.py:44 | `str.count` of a non-empty needle counts occurrences left to right, without overlap. The count is at most the text length, and it is zero when the needle's first character does not occur. |
| PyStr.CountFits | src/to_moodle_html/to_moodle_html.py:44 | The counted occurrences do not overlap, so `count * len(sub) <= len(s)`. |
| PyStr.CountChar | src/to_moodle_html/to_moodle_html.py:62 | `line.count("$")` equals the number of `$` characters in the line (its multiset multiplicity). |
| PyStr.Split | src/to_moodle_html/to_moodle_html.py:54 | `text.split("\n")` yields at least one line. No line contains `\n`, and joining the lines with `\n` gives the text back. |
| PyStr.SplitJoin | src/to_moodle_html/to_moodle_html.py:74 | The other direction of the round trip: splitting the `\n`-join of at least one break-free line gives those lines back. |
| PyStr.SplitKeepsOut | src/to_moodle_html/to_moodle_html.py:54 | A character absent from the text is absent from every line of the split. |
| PyStr.LeadingSpace | src/to_moodle_html/to_moodle_html.py:18 | The greedy `\s*` consumes exactly the leading run of whitespace. |
| PyStr.RStrip | src/to_moodle_html/to_moodle_html.py:134 | `rstrip()` returns a prefix of its input. Only whitespace is removed, and the result is empty or ends in a non-space character. |
| Fences.FenceTag | src/to_moodle_html/to_moodle_html.py:18-20 | A line is a fence exactly when it starts with three backticks at column 0. The tag is a suffix of the line, and everything between the backticks and the tag is whitespace. A non-empty tag starts with a non-space character, so the greedy `\s*` has taken the whole run. The tag is empty exactly when the rest of the line is all whitespace. |
| Fences.Classify | src/to_moodle_html/to_moodle_html.py:15-35 | Exactly one pair per input line, in order. In each pair exactly one slot is filled, and it holds that line unchanged. |
| Fences.ClassifyAt | src/to_moodle_html/to_moodle_html.py:15-35 | Pair `i` is determined by line `i` and by the state left by lines `0..i-1`. |
| Fences.TaggedFenceOpens | src/to_moodle_html/to_moodle_html.py:19-23 | A fence with a non-empty tag is verbatim. Afterwards the classifier is inside a block, whatever the state before, so a tagged fence never closes a block. |
| Fences.BareFenceToggles | src/to_moodle_html/to_moodle_html.py:24-30 | A bare fence is verbatim and flips the state. |
| Fences.OtherLineFollowsState | src/to_moodle_html/to_moodle_html.py:31-35 | A non-fence line keeps the state. It is prose exactly when no block is open before it. |
| Fences.SplitCodeBlockIter | src/to_moodle_html/to_moodle_html.py:15-35 | The loop with its mutable `in_code_block` yields exactly `Classify(lines)`. |
| MathSpans.FindClose | src/to_moodle_html/to_moodle_html.py:52 | The lazy `.+?` returns the least closing position at or after the search start, with non-empty content that `.` matches. It returns none when no such position exists. |
| MathSpans.SpanAt | src/to_moodle_html/to_moodle_html.py:52 | The shortest span opening at the start of the text, or none when no span opens there. |
| MathSpans.Segment | src/to_moodle_html/to_moodle_html.py:52 | The scan yields a leftmost-shortest, non-overlapping segmentation. A character is copied only where no span opens. Each span is the shortest non-empty one. Scanning resumes after the closing delimiter. |
| MathSpans.SegmentationUnique | src/to_moodle_html/to_moodle_html.py:52 | A text has only one leftmost-shortest segmentation. |
| MathSpans.EmitRewrap | src/to_moodle_html/to_moodle_html.py:48-52 | Text outside the spans is copied unchanged. Putting each span back between its delimiters restores the input. |
| MathSpans.SubstituteRewrap | src/to_moodle_html/to_moodle_html.py:48-52 | Substituting with a renderer that gives each span back with its delimiters returns the text unchanged. |
| MathSpans.SubstituteBySegmentation | src/to_moodle_html/to_moodle_html.py:48-52 | For every renderer, the substitution is the one fixed by the unique leftmost-shortest segmentation. Each span is replaced by `render(content, mode)`. |
| MathSpans.SubstituteDollarFreePrefix | src/to_moodle_html/to_moodle_html.py:67-71 | A leading stretch without `$` is copied as it is, and the scan continues after it. |
| MathSpans.DollarFreeUnchanged | src/to_moodle_html/to_moodle_html.py:52 | Neither pass changes text that has no `$`. |
| MathSpans.SpanThenRest | src/to_moodle_html/to_moodle_html.py:67-71 | A span at the start with non-empty, `$`-free content is replaced by `render(content, mode)`, and the scan resumes right after its closing delimiter. |
| MathSpans.BlockSkipsLoneDollar | src/to_moodle_html/to_moodle_html.py:52 | In the block pass, a `$` that does not begin `$$` is copied. |
| LatexMath.ConvertLinesSucceeds | src/to_moodle_html/to_moodle_html.py:56-64 | The loop over the pairs completes exactly when every prose line has an even number of `$`. |
| LatexMath.ConvertLinesOutput | src/to_moodle_html/to_moodle_html.py:56-72 | When the loop completes it gives one output line per pair. Verbatim lines are unchanged, and prose lines get the inline pass. |
| LatexMath.ConvertLinesFailure | src/to_moodle_html/to_moodle_html.py:62-64 | When the loop fails, the error is raised at the first prose line with an odd number of `$`. |
| LatexMath.FirstOddLineReported | src/to_moodle_html/to_moodle_html.py:62-64 | If every earlier prose line is balanced, an unbalanced prose line `i` is the line the error is raised for. |
| LatexMath.FormatLatexMathBlocks | src/to_moodle_html/to_moodle_html.py:38-74 | The method follows the source's steps: count check, block pass, split, classify, then the loop that appends to the list and may raise, then the join. It returns exactly `FormatLatexMath(text, render)`. |
| LatexMath.OddBlockCountRejects | src/to_moodle_html/to_moodle_html.py:44-46 | The conversion raises the `$$` error exactly when the text's non-overlapping `$$` count is odd. The count covers the whole text, fenced code included. |
| LatexMath.OddProseLineRejects | src/to_moodle_html/to_moodle_html.py:54-64 | With an even `$$` count, the conversion fails exactly when some prose line of the block-substituted text has an odd `$` count. The error names the first such line. |
| LatexMath.ClassifiedOutput | src/to_moodle_html/to_moodle_html.py:56-72 | Over classified lines, a completed loop keeps every verbatim line and converts every prose line. |
| LatexMath.LinesKeptOrConverted | src/to_moodle_html/to_moodle_html.py:52-74 | On success, the output is the `\n`-join of one line per line of the block-substituted text. Verbatim lines appear unchanged, and prose lines are inline-substituted. |
| LatexMath.DollarFreeLines | src/to_moodle_html/to_moodle_html.py:56-72 | Lines without `$` pass the loop unchanged, whether they are verbatim or prose. |
| LatexMath.DollarFreeAfterBlocks | src/to_moodle_html/to_moodle_html.py:52-74 | If the block pass leaves no `$`, the result is the block-substituted text itself. |
| LatexMath.AllVerbatimAfterBlocks | src/to_moodle_html/to_moodle_html.py:52-60 | If every line after the block pass is verbatim, the result is the block-substituted text, whatever `$` its lines contain. |
| LatexMath.DollarFreeIdentity | src/to_moodle_html/to_moodle_html.py:38-74 | A text with no `$` comes back exactly as it was. |
| LatexMath.Idempotent | src/to_moodle_html/to_moodle_html.py:38-74 | Converting again an output that has no `$` leaves it unchanged. |
| LatexMath.MessageOmitsLine | src/to_moodle_html/to_moodle_html.py:64 | As written, the `$` error message is the same for every line. For example, the different lines `a $ b` and `$$$` are reported alike. |
| LatexMath.IntendedMessageNamesLine | src/to_moodle_html/to_moodle_html.py:64 | With the line filled in, different lines give different messages. |
| Scenarios.InlineSpanInProse | src/to_moodle_html/to_moodle_html.py:67-71 | A prose line `a$x$b` (no other `$`, not a fence) becomes `a + render(x, inline) + b`. |
| Scenarios.InlineExample | src/to_moodle_html/to_moodle_html.py:67-71 | `"Inline $x+1$ math."` becomes `"Inline " + render("x+1", inline) + " math."`. |
| Scenarios.BlockSpanAcrossLines | src/to_moodle_html/to_moodle_html.py:48-52 | If the rendered block contains no `$`, then `$$x$$` becomes `render(x, block)` as a whole. Here `x` is non-empty, has no `$`, and may hold line breaks. |
| Scenarios.BlockExample | src/to_moodle_html/to_moodle_html.py:48-52 | If `render("\na=1\n", block)` contains no `$`, then `"$$\na=1\n$$"` becomes that rendering. |
| Scenarios.BlockSpanInsideFence | src/to_moodle_html/to_moodle_html.py:52-60 | If the rendered block contains no line break, a `$$x$$` between bare fences is still rendered, because block spans are replaced before lines are classified. |
| Scenarios.TaggedFenceKeepsBlockOpen | src/to_moodle_html/to_moodle_html.py:21-23 | In a block opened by a bare fence, a tagged fence does not close it. The following unbalanced `$` line stays verbatim, and the text comes back unchanged. |
| Scenarios.BareFenceClosesBlock | src/to_moodle_html/to_moodle_html.py:25-30 | With a bare fence in its place the block closes, and the same `$` line is rejected as unbalanced prose. |
| Scenarios.OddBlockInsideFence | src/to_moodle_html/to_moodle_html.py:44-46 | A single `$$` inside a fenced block still raises the `$$` error. |
| PreStyle.MergePreStyle | src/to_moodle_html/to_moodle_html.py:133-137 | The new style ends with the fixed background and padding declarations. Before them come the old style's declarations with trailing whitespace dropped, ended by `;`. The `;` is added only when those declarations are non-empty and do not already end in `;`. A missing attribute counts as empty. |

The functions that only compute have no row of their own. They are
`PyStr.IsSpace` (the `\s` and `str.isspace` class used at lines 18 and 134),
`PyStr.Join` (`"\n".join` at line 74), `Next`, `YieldOf`, `InCodeAfter`, `Emit`,
`Substitute`, `ConvertLine`, `ConvertLines`, `FormatLines`, `FormatLatexMath`,
`Message` and `IntendedMessage`. The lemmas above state their properties.

## Left out

- `main()`: argument parsing, reading stdin or a file, choosing the output name
  (`-o`, `-O`, `os.path.splitext`), writing the output, and `sys.exit` on error.
  This is I/O.
- The Markdown-to-HTML call, BeautifulSoup parsing, `find_all`, `prettify`, and the
  table `border` attribute. These are external libraries. Only the string rule that
  merges the `<pre>` style is modelled, for one element's attribute value.
- latex2mathml itself. The renderer is a total function parameter, so the model
  leaves out its failure mode, a render error that propagates out of the pass.
- The `__version__` import fallback.
- A general regular-expression engine. Only the two fixed span patterns and the
  fence pattern are modelled, as explicit scanners.
- The failed `assert code_block_line is not None` at line 58 is not modelled as an
  error. `Classify` proves that the pair always has its code slot filled when the
  prose slot is empty.
- LatexMath.Message: the structured error `OddInlineDelimiters(line)` records which
  line raised. The source's message text does not contain it, and `Message`
  reproduces that text exactly.

## Findings

| source | as written | input that shows it | evidently intended | confidence | as-written member | corrected member |
|---|---|---|---|---|---|---|
| src/to_moodle_html/to_moodle_html.py:64 | The `$` error message is a plain string literal, so the user sees the text `{line}` and not the offending line | Any prose line with an odd number of `$`, such as `a $ b` or `$$$`: both give the same message | An f-string that shows the unbalanced line | high (the placeholder has no other use); not executed | LatexMath.MessageOmitsLine | LatexMath.IntendedMessageNamesLine |
