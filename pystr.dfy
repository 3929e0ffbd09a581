/** The Python `str` operations the conversion relies on, over `seq<char>`. */
module PyStr {

  /** Python's Unicode whitespace: what `str.isspace`, `str.rstrip()` and the regex class `\s` accept. */
  predicate IsSpace(c: char)
  {
    ('\t' <= c <= '\r') || ('\U{1C}' <= c <= '\U{1F}') || c == ' ' || c == '\U{85}' || c == '\U{A0}'
    || c == '\U{1680}' || ('\U{2000}' <= c <= '\U{200A}') || c == '\U{2028}' || c == '\U{2029}'
    || c == '\U{202F}' || c == '\U{205F}' || c == '\U{3000}'
  }

  predicate AllSpace(s: string)
  {
    forall i :: 0 <= i < |s| ==> IsSpace(s[i])
  }

  /** Length of the whitespace run that starts `s`: what a greedy `\s*` consumes. */
  function LeadingSpace(s: string): (k: nat)
    ensures k <= |s| && AllSpace(s[..k])
    ensures k < |s| ==> !IsSpace(s[k])
  {
    if s != [] && IsSpace(s[0]) then 1 + LeadingSpace(s[1..]) else 0
  }

  /** `s.rstrip()`: the longest prefix of `s` that does not end in whitespace. */
  function RStrip(s: string): (r: string)
    ensures r <= s && AllSpace(s[|r|..])
    ensures r == [] || !IsSpace(r[|r| - 1])
  {
    if s != [] && IsSpace(s[|s| - 1]) then RStrip(s[..|s| - 1]) else s
  }

  /** `s.count(sub)` for a non-empty `sub`: occurrences counted left to right, without overlap. */
  function Count(s: string, sub: string): (n: nat)
    requires sub != []
    ensures n <= |s|
    ensures sub[0] !in s ==> n == 0
    decreases |s|
  {
    if |s| < |sub| then 0
    else if s[..|sub|] == sub then
      assert s[0] == sub[0];
      1 + Count(s[|sub|..], sub)
    else
      assert s == [s[0]] + s[1..];
      Count(s[1..], sub)
  }

  /** The counted occurrences do not overlap: together they fit inside `s`. */
  lemma {:induction false} CountFits(s: string, sub: string)
    requires sub != []
    ensures Count(s, sub) * |sub| <= |s|
    decreases |s|
  {
    if |s| >= |sub| {
      var k := |sub|;
      if s[..k] == sub {
        var rest := s[k..];
        CountFits(rest, sub);
        FitsOneMore(Count(rest, sub), k, |rest|);
        assert Count(s, sub) == 1 + Count(rest, sub);
      } else {
        CountFits(s[1..], sub);
      }
    }
  }

  lemma {:induction false} FitsOneMore(n: nat, k: nat, m: nat)
    requires n * k <= m
    ensures (1 + n) * k <= k + m
  {
  }

  /** Counting a one-character string counts that character. */
  lemma {:induction false} CountChar(s: string, c: char)
    ensures Count(s, [c]) == multiset(s)[c]
  {
    if s != [] {
      CountChar(s[1..], c);
      assert s == [s[0]] + s[1..];
      assert s[..1] == [s[0]];
    }
  }

  /** A stretch that cannot start an occurrence is skipped over by the count. */
  lemma {:induction false} CountSkips(x: string, y: string, sub: string)
    requires sub != [] && sub[0] !in x
    ensures Count(x + y, sub) == Count(y, sub)
    decreases |x|
  {
    if x != [] {
      var s := x + y;
      assert x[0] in x && s[0] == x[0];
      if |s| >= |sub| {
        assert s[..|sub|][0] == x[0];
      }
      assert s[1..] == x[1..] + y;
      CountSkips(x[1..], y, sub);
    } else {
      assert x + y == y;
    }
  }

  /** An occurrence at the start is counted, and the count resumes after it. */
  lemma {:induction false} CountLeading(sub: string, y: string)
    requires sub != []
    ensures Count(sub + y, sub) == 1 + Count(y, sub)
  {
    assert (sub + y)[..|sub|] == sub && (sub + y)[|sub|..] == y;
  }

  /** Index of the first `c` in `s`, or `|s|` when there is none. */
  function IndexOf(s: string, c: char): (k: nat)
    ensures k <= |s| && c !in s[..k]
    ensures k < |s| ==> s[k] == c
  {
    if s == [] || s[0] == c then 0 else 1 + IndexOf(s[1..], c)
  }

  lemma {:induction false} IndexOfAfter(a: string, b: string, c: char)
    requires c !in a
    ensures IndexOf(a + b, c) == |a| + IndexOf(b, c)
  {
    if a != [] {
      assert a[0] in a && (a + b)[0] == a[0];
      assert (a + b)[1..] == a[1..] + b;
      IndexOfAfter(a[1..], b, c);
    } else {
      assert a + b == b;
    }
  }

  /** `"\n".join(lines)`. */
  function Join(lines: seq<string>): string
  {
    if lines == [] then []
    else if |lines| == 1 then lines[0]
    else lines[0] + "\n" + Join(lines[1..])
  }

  /** `s.split("\n")`: at least one line, no line holds a line break, and joining gives `s` back. */
  function Split(s: string): (lines: seq<string>)
    ensures |lines| >= 1
    ensures forall i :: 0 <= i < |lines| ==> '\n' !in lines[i]
    ensures Join(lines) == s
    decreases |s|
  {
    var k := IndexOf(s, '\n');
    if k == |s| then
      assert s[..k] == s;
      [s]
    else
      var rest := Split(s[k + 1..]);
      assert ([s[..k]] + rest)[1..] == rest;
      assert s == s[..k] + "\n" + s[k + 1..];
      [s[..k]] + rest
  }

  lemma {:induction false} SplitOne(a: string)
    requires '\n' !in a
    ensures Split(a) == [a]
  {
  }

  lemma {:induction false} SplitCons(a: string, b: string)
    requires '\n' !in a
    ensures Split(a + "\n" + b) == [a] + Split(b)
  {
    var s := a + "\n" + b;
    IndexOfAfter(a, "\n" + b, '\n');
    assert s == a + ("\n" + b);
    assert s[..|a|] == a && s[|a| + 1..] == b;
  }

  /** Splitting the join of break-free lines gives the lines back. */
  lemma {:induction false} SplitJoin(lines: seq<string>)
    requires |lines| >= 1
    requires forall i :: 0 <= i < |lines| ==> '\n' !in lines[i]
    ensures Split(Join(lines)) == lines
    decreases |lines|
  {
    var head := lines[0];
    if |lines| == 1 {
      SplitOne(head);
    } else {
      var rest := lines[1..];
      SplitCons(head, Join(rest));
      SplitJoin(rest);
      assert lines == [head] + rest;
    }
  }

  /** A character absent from `s` is absent from every line of `s.split("\n")`. */
  lemma {:induction false} SplitKeepsOut(s: string, c: char)
    requires c !in s
    ensures forall i :: 0 <= i < |Split(s)| ==> c !in Split(s)[i]
    decreases |s|
  {
    var k := IndexOf(s, '\n');
    if k < |s| {
      assert forall x :: x in s[k + 1..] ==> x in s;
      SplitKeepsOut(s[k + 1..], c);
      assert forall x :: x in s[..k] ==> x in s;
    }
  }
}
