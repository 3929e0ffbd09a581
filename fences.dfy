/**
 * The fence-aware line classifier, `split_code_block_iter`: one boolean of state,
 * `in_code_block`, carried from line to line; every line is yielded back either as
 * prose `(line, None)` or as verbatim `(None, line)`.
 */
module Fences {
  import opened Wrappers
  import opened PyStr

  /** One yielded pair: the prose slot and the code-block slot. */
  type Yield = (Option<string>, Option<string>)

  /** Exactly one slot of the pair is filled, and it holds `line`. */
  predicate Holds(y: Yield, line: string)
  {
    (y.0 == Some(line) && y.1 == None) || (y.0 == None && y.1 == Some(line))
  }

  /** The match of `^```\s*(.*)` on a line: its group 1, or None when the line is no fence. */
  function FenceTag(line: string): (tag: Option<string>)
    ensures tag.Some? <==> |line| >= 3 && line[..3] == "```"
    ensures tag.Some? ==> |tag.value| <= |line| - 3 && tag.value == line[|line| - |tag.value|..]
    ensures tag.Some? ==> AllSpace(line[3..|line| - |tag.value|])
    ensures tag.Some? ==> (tag.value == [] <==> AllSpace(line[3..]))
    ensures tag.Some? && tag.value != [] ==> !IsSpace(tag.value[0])
  {
    if |line| >= 3 && line[..3] == "```" then
      var rest := line[3..];
      var k := LeadingSpace(rest);
      assert rest[k..] == line[3 + k..];
      assert rest[..k] == line[3..3 + k];
      assert k < |rest| ==> rest[k] == line[3 + k];
      Some(line[3 + k..])
    else None
  }

  /** `in_code_block` after one more line: a tagged fence always opens, a bare fence toggles, other lines keep it. */
  function Next(inCode: bool, line: string): bool
  {
    match FenceTag(line)
    case None => inCode
    case Some(tag) => if tag != [] then true else !inCode
  }

  /** What is yielded for `line` when `in_code_block` is `inCode` before it: fences and code lines are verbatim. */
  function YieldOf(inCode: bool, line: string): Yield
  {
    if FenceTag(line).Some? || inCode then (None, Some(line)) else (Some(line), None)
  }

  /** `in_code_block` once the classifier has consumed `lines`, starting from false. */
  function InCodeAfter(lines: seq<string>): bool
    decreases |lines|
  {
    if lines == [] then false
    else Next(InCodeAfter(lines[..|lines| - 1]), lines[|lines| - 1])
  }

  /** Everything the classifier yields for `lines`: one pair per line, in order, holding that line. */
  function Classify(lines: seq<string>): (ys: seq<Yield>)
    ensures |ys| == |lines|
    ensures forall i :: 0 <= i < |lines| ==> Holds(ys[i], lines[i])
    ensures forall i :: 0 <= i < |lines| ==> ys[i].0.Some? || ys[i].1.Some?
    decreases |lines|
  {
    if lines == [] then []
    else
      var init := lines[..|lines| - 1];
      Classify(init) + [YieldOf(InCodeAfter(init), lines[|lines| - 1])]
  }

  /** The pair for line `i` depends only on the state the earlier lines leave. */
  lemma {:induction false} ClassifyAt(lines: seq<string>, i: nat)
    requires i < |lines|
    ensures Classify(lines)[i] == YieldOf(InCodeAfter(lines[..i]), lines[i])
    decreases |lines|
  {
    var init := lines[..|lines| - 1];
    if i < |lines| - 1 {
      ClassifyAt(init, i);
      assert init[..i] == lines[..i];
    } else {
      assert init == lines[..i];
    }
  }

  lemma {:induction false} StateStep(lines: seq<string>, i: nat)
    requires i < |lines|
    ensures InCodeAfter(lines[..i + 1]) == Next(InCodeAfter(lines[..i]), lines[i])
  {
    assert lines[..i + 1][..i] == lines[..i];
  }

  /** A fence with a non-empty tag is verbatim and leaves the classifier inside a block, whatever the state before. */
  lemma {:induction false} TaggedFenceOpens(lines: seq<string>, i: nat)
    requires i < |lines| && FenceTag(lines[i]).Some? && FenceTag(lines[i]).value != []
    ensures Classify(lines)[i] == (None, Some(lines[i]))
    ensures InCodeAfter(lines[..i + 1])
  {
    ClassifyAt(lines, i);
    StateStep(lines, i);
  }

  /** A bare fence is verbatim and flips the state. */
  lemma {:induction false} BareFenceToggles(lines: seq<string>, i: nat)
    requires i < |lines| && FenceTag(lines[i]) == Some([])
    ensures Classify(lines)[i] == (None, Some(lines[i]))
    ensures InCodeAfter(lines[..i + 1]) == !InCodeAfter(lines[..i])
  {
    ClassifyAt(lines, i);
    StateStep(lines, i);
  }

  /** A line that is not a fence keeps the state, and is prose exactly when no block is open. */
  lemma {:induction false} OtherLineFollowsState(lines: seq<string>, i: nat)
    requires i < |lines| && FenceTag(lines[i]).None?
    ensures Classify(lines)[i].0.Some? <==> !InCodeAfter(lines[..i])
    ensures InCodeAfter(lines[..i + 1]) == InCodeAfter(lines[..i])
  {
    ClassifyAt(lines, i);
    StateStep(lines, i);
  }

  /** `split_code_block_iter`, with its yields collected in order. */
  method SplitCodeBlockIter(lines: seq<string>) returns (ys: seq<Yield>)
    ensures ys == Classify(lines)
  {
    var inCode := false;
    ys := [];
    for i := 0 to |lines|
      invariant inCode == InCodeAfter(lines[..i])
      invariant ys == Classify(lines[..i])
    {
      var line := lines[i];
      assert lines[..i + 1][..i] == lines[..i];
      match FenceTag(line) {
        case Some(additionalDesc) =>
          if additionalDesc != [] {
            inCode := true;
            ys := ys + [(None, Some(line))];
          } else if !inCode {
            inCode := true;
            ys := ys + [(None, Some(line))];
          } else {
            inCode := false;
            ys := ys + [(None, Some(line))];
          }
        case None =>
          if !inCode {
            ys := ys + [(Some(line), None)];
          } else {
            ys := ys + [(None, Some(line))];
          }
      }
    }
    assert lines[..|lines|] == lines;
  }
}
