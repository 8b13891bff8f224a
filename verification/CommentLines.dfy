/**
 * Prose lines of a Markdown document (scripts/markdown.ts): global comment offsets,
 * clipped to lines, and the sweep that looks for visible text between them.
 */
module CommentLines {
  import opened Wrappers
  import opened Text
  import opened Substring
  import opened Sorting

  /** A raw HTML node: its text and where it starts in the source. */
  datatype HtmlNode = HtmlNode(offset: nat, value: string)

  /** A fenced or indented code node, by its first and last line (from 1). */
  datatype CodeNode = CodeNode(first: nat, last: nat)

  datatype Span = Span(start: nat, end: nat)

  datatype ProseLine = ProseLine(index: nat, raw: string)

  predicate InSpan(c: Span, p: nat) {
    c.start <= p < c.end
  }

  ghost predicate Covered(spans: seq<Span>, p: nat) {
    exists c :: c in spans && InSpan(c, p)
  }

  lemma {:induction false} CoveredAppend(a: seq<Span>, b: seq<Span>, p: nat)
    ensures Covered(a + b, p) <==> Covered(a, p) || Covered(b, p)
  {
    if Covered(a, p) {
      var d :| d in a && InSpan(d, p);
      assert d in a + b;
    }
    if Covered(b, p) {
      var d :| d in b && InSpan(d, p);
      assert d in a + b;
    }
  }

  lemma {:induction false} CoveredOne(c: Span, p: nat)
    ensures Covered([c], p) <==> InSpan(c, p)
  {
    if InSpan(c, p) { assert c in [c]; }
  }

  // ----- comments inside one node

  /** The comments of one node from `cursor` on; an unclosed one runs to the end of the node. */
  function CommentsFrom(value: string, cursor: nat): (r: seq<Span>)
    requires cursor <= |value|
    decreases |value| - cursor
  {
    var start := IndexFrom(value, "<!--", cursor);
    if start < 0 then []
    else
      var close := IndexFrom(value, "-->", start + 4);
      var end := if close < 0 then |value| else close + 3;
      [Span(start, end)] + CommentsFrom(value, end)
  }

  /**
   * The comments of a node, independently of how they are found: in order and apart,
   * each closed at its first chance, and with no opening left outside all of them.
   */
  ghost predicate AreComments(value: string, cs: seq<Span>, cursor: nat) {
    && (forall k :: 0 <= k < |cs| ==> cursor <= cs[k].start && IsComment(value, cs[k]))
    && Apart(cs)
    && (forall i: nat :: cursor <= i && Opens(value, i) ==> Covered(cs, i))
  }

  ghost predicate Apart(cs: seq<Span>) {
    forall k, l :: 0 <= k < l < |cs| ==> cs[k].end <= cs[l].start
  }

  predicate Opens(value: string, i: nat) {
    OccursAt(value, "<!--", i)
  }

  ghost predicate NoOpenIn(value: string, from: nat, to: nat) {
    forall i: nat :: from <= i < to ==> !Opens(value, i)
  }

  ghost predicate IsComment(value: string, c: Span) {
    && Opens(value, c.start)
    && c.start + 4 <= c.end <= |value|
    && if c.end >= c.start + 7 && OccursAt(value, "-->", c.end - 3) then NoCloseIn(value, c.start + 4, c.end - 3)
       else c.end == |value| && NoCloseIn(value, c.start + 4, |value|)
  }

  ghost predicate NoCloseIn(value: string, from: nat, to: nat) {
    forall i: nat :: from <= i < to ==> !OccursAt(value, "-->", i)
  }

  /** What `CommentsFrom` answers first. */
  lemma {:induction false} FirstComment(value: string, cursor: nat)
    requires cursor <= |value|
    ensures var cs := CommentsFrom(value, cursor);
            if cs == [] then forall i: nat :: cursor <= i ==> !Opens(value, i)
            else
              && cursor <= cs[0].start && IsComment(value, cs[0])
              && cs == [cs[0]] + CommentsFrom(value, cs[0].end)
              && NoOpenIn(value, cursor, cs[0].start)
  {}

  lemma {:induction false} CommentsAreComments(value: string, cursor: nat)
    requires cursor <= |value|
    ensures AreComments(value, CommentsFrom(value, cursor), cursor)
    decreases |value| - cursor
  {
    hide CommentsFrom, Opens;
    FirstComment(value, cursor);
    var cs := CommentsFrom(value, cursor);
    if cs != [] {
      CommentsAreComments(value, cs[0].end);
      PrependComment(value, cs[0], CommentsFrom(value, cs[0].end), cursor);
    }
  }

  lemma {:induction false} PrependComment(value: string, first: Span, rest: seq<Span>, cursor: nat)
    requires cursor <= first.start && IsComment(value, first)
    requires AreComments(value, rest, first.end)
    requires NoOpenIn(value, cursor, first.start)
    ensures AreComments(value, [first] + rest, cursor)
  {
    CommentSpan(value, first);
    hide Opens, IsComment, Covered, Apart;
    forall i: nat | cursor <= i && Opens(value, i) ensures Covered([first] + rest, i) {
      CoveredAppend([first], rest, i);
      CoveredOne(first, i);
    }
    ApartCons(first, rest);
  }

  lemma CommentSpan(value: string, c: Span)
    requires IsComment(value, c)
    ensures c.start < c.end <= |value| && Opens(value, c.start)
  {}

  lemma {:induction false} ApartCons(first: Span, rest: seq<Span>)
    requires Apart(rest) && forall k :: 0 <= k < |rest| ==> first.end <= rest[k].start
    ensures Apart([first] + rest)
  {}

  /** The description fits one list of comments only. */
  lemma {:induction false} CommentsUnique(value: string, cs: seq<Span>, cursor: nat)
    requires cursor <= |value| && AreComments(value, cs, cursor)
    ensures cs == CommentsFrom(value, cursor)
    decreases |value| - cursor
  {
    FirstComment(value, cursor);
    var expected := CommentsFrom(value, cursor);
    BothStart(value, cs, expected, cursor);
    if cs != [] {
      CoversFrom(value, cs, expected[0].start, cursor);
      SameComment(value, cs[0], expected[0]);
      RestOfComments(value, cs, cursor);
      hide *;
      CommentsUnique(value, cs[1..], cs[0].end);
      assert cs == [cs[0]] + cs[1..];
    }
  }

  lemma {:induction false} BothStart(value: string, cs: seq<Span>, expected: seq<Span>, cursor: nat)
    requires AreComments(value, cs, cursor)
    requires if expected == [] then forall i: nat :: cursor <= i ==> !Opens(value, i)
             else cursor <= expected[0].start && IsComment(value, expected[0])
    ensures cs == [] <==> expected == []
  {
    hide Opens, NoCloseIn;
    assert cs != [] ==> cursor <= cs[0].start && IsComment(value, cs[0]);
    assert expected != [] ==> Covered(cs, expected[0].start);
  }

  lemma {:induction false} CoversFrom(value: string, cs: seq<Span>, open: nat, cursor: nat)
    requires cs != [] && AreComments(value, cs, cursor) && cursor <= open && Opens(value, open)
    requires NoOpenIn(value, cursor, open)
    ensures cs[0].start == open && IsComment(value, cs[0])
  {
    hide Opens, IsComment, Apart;
    assert Covered(cs, open);
    var c :| c in cs && InSpan(c, open);
    var k :| 0 <= k < |cs| && cs[k] == c;
    FirstNotAfter(value, cs, cursor, k);
  }

  lemma {:induction false} FirstNotAfter(value: string, cs: seq<Span>, cursor: nat, k: nat)
    requires k < |cs| && AreComments(value, cs, cursor)
    ensures cursor <= cs[0].start <= cs[k].start && Opens(value, cs[0].start)
  {
    hide Opens, NoCloseIn, Covered;
    assert IsComment(value, cs[0]);
  }

  lemma {:induction false} SameComment(value: string, c: Span, e: Span)
    requires IsComment(value, c) && IsComment(value, e) && c.start == e.start
    ensures c == e
  {
    hide OccursAt;
    NoEarlierEnd(value, c, e);
    NoEarlierEnd(value, e, c);
  }

  lemma {:induction false} NoEarlierEnd(value: string, c: Span, e: Span)
    requires IsComment(value, c) && IsComment(value, e) && c.start == e.start
    ensures c.end >= e.end
  {
    hide OccursAt;
    assert c.end < e.end ==> OccursAt(value, "-->", c.end - 3);
  }

  lemma {:induction false} RestOfComments(value: string, cs: seq<Span>, cursor: nat)
    requires cs != [] && AreComments(value, cs, cursor)
    ensures cs[0].end <= |value| && AreComments(value, cs[1..], cs[0].end)
  {
    hide Opens, IsComment, Covered;
    assert IsComment(value, cs[0]);
    CommentSpan(value, cs[0]);
    forall k | 0 <= k < |cs[1..]| ensures cs[0].end <= cs[1..][k].start && IsComment(value, cs[1..][k]) {
      assert cs[1..][k] == cs[k + 1];
    }
    forall i: nat | cs[0].end <= i && Opens(value, i) ensures Covered(cs[1..], i) {
      CoveredBeyondFirst(cs, i);
    }
  }

  lemma {:induction false} CoveredBeyondFirst(cs: seq<Span>, i: nat)
    requires cs != [] && Covered(cs, i) && cs[0].end <= i
    ensures Covered(cs[1..], i)
  {
    assert cs == [cs[0]] + cs[1..];
    CoveredAppend([cs[0]], cs[1..], i);
    CoveredOne(cs[0], i);
  }

  /** The inner loop of `htmlCommentRanges`, in source offsets. */
  method NodeComments(node: HtmlNode, comments: seq<Span>) returns (r: seq<Span>)
    ensures r == comments + Shifted(CommentsFrom(node.value, 0), node.offset)
  {
    hide OccursAt, Shifted, CommentsFrom;
    r := comments;
    var cursor := 0;
    while true
      invariant cursor <= |node.value|
      invariant r + Shifted(CommentsFrom(node.value, cursor), node.offset)
             == comments + Shifted(CommentsFrom(node.value, 0), node.offset)
      decreases |node.value| - cursor
    {
      CommentsStep(node.value, cursor);
      var start := IndexFrom(node.value, "<!--", cursor);
      if start < 0 { break; }
      var close := IndexFrom(node.value, "-->", start + 4);
      var end := if close < 0 then |node.value| else close + 3;
      ShiftedCons(r, Span(start, end), CommentsFrom(node.value, end), node.offset);
      r := r + [Span(node.offset + start, node.offset + end)];
      cursor := end;
    }
    ShiftedNone(r, node.offset);
  }

  lemma {:induction false} CommentsStep(value: string, cursor: nat)
    requires cursor <= |value|
    ensures var start := IndexFrom(value, "<!--", cursor);
            if start < 0 then CommentsFrom(value, cursor) == []
            else
              && start + 4 <= |value|
              && var close := IndexFrom(value, "-->", start + 4);
              var end := if close < 0 then |value| else close + 3;
              start < end <= |value| && cursor < end
                && CommentsFrom(value, cursor) == [Span(start, end)] + CommentsFrom(value, end)
  {}

  function Shifted(spans: seq<Span>, offset: nat): (r: seq<Span>)
    ensures |r| == |spans|
    ensures forall i :: 0 <= i < |r| ==> r[i] == Span(offset + spans[i].start, offset + spans[i].end)
  {
    seq(|spans|, i requires 0 <= i < |spans| => Span(offset + spans[i].start, offset + spans[i].end))
  }

  lemma {:induction false} ShiftedCons(before: seq<Span>, c: Span, rest: seq<Span>, offset: nat)
    ensures before + Shifted([c] + rest, offset)
      == before + [Span(offset + c.start, offset + c.end)] + Shifted(rest, offset)
  {}

  lemma ShiftedNone(before: seq<Span>, offset: nat)
    ensures before + Shifted([], offset) == before
  {}

  lemma {:induction false} ShiftedCovers(spans: seq<Span>, offset: nat, p: nat)
    ensures Covered(Shifted(spans, offset), p) <==> p >= offset && Covered(spans, p - offset)
  {
    var shifted := Shifted(spans, offset);
    if Covered(shifted, p) {
      var d :| d in shifted && InSpan(d, p);
      var i :| 0 <= i < |shifted| && shifted[i] == d;
      assert spans[i] in spans && InSpan(spans[i], p - offset);
    }
    if p >= offset && Covered(spans, p - offset) {
      var d :| d in spans && InSpan(d, p - offset);
      var i :| 0 <= i < |spans| && spans[i] == d;
      assert shifted[i] in shifted && InSpan(shifted[i], p);
    }
  }

  /** The comments of all nodes, in document order. */
  function AllComments(nodes: seq<HtmlNode>): seq<Span> {
    if nodes == [] then []
    else
      var last := nodes[|nodes| - 1];
      AllComments(nodes[..|nodes| - 1]) + Shifted(CommentsFrom(last.value, 0), last.offset)
  }

  /** A source offset lies in a comment: some node spans it and holds a comment there. */
  ghost predicate InComment(nodes: seq<HtmlNode>, p: nat) {
    exists node, cs :: node in nodes && NodeHolds(node, cs, p)
  }

  ghost predicate NodeHolds(node: HtmlNode, cs: seq<Span>, p: nat) {
    AreComments(node.value, cs, 0) && p >= node.offset && Covered(cs, p - node.offset)
  }

  lemma {:induction false} AllCommentsCover(nodes: seq<HtmlNode>, p: nat)
    ensures Covered(AllComments(nodes), p) <==> InComment(nodes, p)
  {
    if nodes != [] {
      var before, last := nodes[..|nodes| - 1], nodes[|nodes| - 1];
      AllCommentsCover(before, p);
      hide Covered, AreComments, CommentsFrom, Shifted;
      CoveredAppend(AllComments(before), Shifted(CommentsFrom(last.value, 0), last.offset), p);
      ShiftedCovers(CommentsFrom(last.value, 0), last.offset, p);
      LastNode(before, last, p);
      assert nodes == before + [last];
    }
  }

  lemma {:induction false} LastNode(before: seq<HtmlNode>, last: HtmlNode, p: nat)
    ensures InComment(before + [last], p)
       <==> InComment(before, p) || (p >= last.offset && Covered(CommentsFrom(last.value, 0), p - last.offset))
  {
    hide AreComments, Covered, CommentsFrom;
    CommentsAreComments(last.value, 0);
    if p >= last.offset && Covered(CommentsFrom(last.value, 0), p - last.offset) {
      assert last in before + [last] && NodeHolds(last, CommentsFrom(last.value, 0), p);
    }
    if InComment(before, p) {
      var node, cs :| node in before && NodeHolds(node, cs, p);
      assert node in before + [last];
    }
    if InComment(before + [last], p) {
      var node, cs :| node in before + [last] && NodeHolds(node, cs, p);
      CommentsUnique(node.value, cs, 0);
    }
  }

  // ----- comments on one line

  function Max(a: nat, b: nat): nat { if a >= b then a else b }
  function Min(a: nat, b: nat): nat { if a <= b then a else b }

  /** A comment meets the line that starts at `from` and is `len` long. */
  predicate Touches(c: Span, from: nat, len: nat) {
    Max(c.start, from) < Min(c.end, from + len) || (len == 0 && c.start <= from < c.end)
  }

  /** The part of a comment on a line it touches, in columns. */
  function Clip(c: Span, from: nat, len: nat): (r: Span)
    requires Touches(c, from, len)
    ensures r.start <= r.end <= len
  {
    Span(Max(c.start, from) - from, Min(c.end, from + len) - from)
  }

  function Clipped(comments: seq<Span>, from: nat, len: nat): (r: seq<Span>)
    ensures forall x :: x in r ==> x.start <= x.end <= len
  {
    if comments == [] then []
    else
      var last := comments[|comments| - 1];
      Clipped(comments[..|comments| - 1], from, len) + ClipOne(last, from, len)
  }

  function ClipOne(c: Span, from: nat, len: nat): (r: seq<Span>)
    ensures forall x :: x in r ==> x.start <= x.end <= len
  {
    if Touches(c, from, len) then [Clip(c, from, len)] else []
  }

  /** Clipping neither loses nor adds a covered column. */
  lemma {:induction false} ClippedCovers(comments: seq<Span>, from: nat, len: nat, p: nat)
    requires p < len
    ensures Covered(Clipped(comments, from, len), p) <==> Covered(comments, from + p)
  {
    if comments != [] {
      var before, last := comments[..|comments| - 1], comments[|comments| - 1];
      ClippedCovers(before, from, len, p);
      ClipOneCovers(last, from, len, p);
      CoveredAppend(Clipped(before, from, len), ClipOne(last, from, len), p);
      CoveredAppend(before, [last], from + p);
      CoveredOne(last, from + p);
      hide Covered;
      assert comments == before + [last];
    }
  }

  lemma {:induction false} ClipOneCovers(c: Span, from: nat, len: nat, p: nat)
    requires p < len
    ensures Covered(ClipOne(c, from, len), p) <==> InSpan(c, from + p)
  {
    if Touches(c, from, len) {
      CoveredOne(Clip(c, from, len), p);
    }
  }

  /** A line has clipped ranges exactly when a comment lies on it; an empty line counts by its position. */
  lemma {:induction false} ClippedSome(comments: seq<Span>, from: nat, len: nat)
    ensures Clipped(comments, from, len) != []
      <==> exists p: nat :: from <= p < from + Max(len, 1) && Covered(comments, p)
  {
    if comments != [] {
      var before, last := comments[..|comments| - 1], comments[|comments| - 1];
      ClippedSome(before, from, len);
      hide Covered, Clipped;
      ClippedSnoc(before, last, from, len);
      assert comments == before + [last];
      forall p: nat ensures Covered(comments, p) <==> Covered(before, p) || InSpan(last, p) {
        CoveredAppend(before, [last], p);
        CoveredOne(last, p);
      }
      if Touches(last, from, len) {
        var p := Max(last.start, from);
        assert from <= p < from + Max(len, 1) && Covered(comments, p);
      }
    }
  }

  lemma {:induction false} ClippedSnoc(before: seq<Span>, last: Span, from: nat, len: nat)
    ensures Clipped(before + [last], from, len) == Clipped(before, from, len) + ClipOne(last, from, len)
  {
    assert (before + [last])[..|before|] == before;
  }

  /** A line after the first `n` lines begins here. */
  function LineOffset(lines: seq<string>, n: nat): nat
    requires n <= |lines|
  {
    if n == 0 then 0 else LineOffset(lines, n - 1) + |lines[n - 1]| + 1
  }

  lemma {:induction false} OffsetTail(lines: seq<string>, n: nat)
    requires 1 <= n <= |lines|
    ensures LineOffset(lines, n) == |lines[0]| + 1 + LineOffset(lines[1..], n - 1)
  {
    if n > 1 { OffsetTail(lines, n - 1); }
  }

  /** Each line of the split is the slice of the source at its offset. */
  lemma {:induction false} JoinedLine(lines: seq<string>, sep: char, n: nat)
    requires n < |lines|
    ensures var from := LineOffset(lines, n);
            from + |lines[n]| <= |Join(lines, [sep])| && Join(lines, [sep])[from..from + |lines[n]|] == lines[n]
  {
    if n > 0 {
      var rest := Join(lines[1..], [sep]);
      var head := lines[0] + [sep];
      OffsetTail(lines, n);
      JoinedLine(lines[1..], sep, n - 1);
      var from := LineOffset(lines[1..], n - 1);
      assert Join(lines, [sep]) == head + rest;
      assert (head + rest)[|head| + from..|head| + from + |lines[n]|] == rest[from..from + |lines[n]|];
    } else if |lines| > 1 {
      assert Join(lines, [sep]) == lines[0] + ([sep] + Join(lines[1..], [sep]));
    }
  }

  /** The per-line ranges after `n` lines. */
  ghost predicate RangesOf(ranges: map<nat, seq<Span>>, comments: seq<Span>, lines: seq<string>, n: nat)
    requires n <= |lines|
  {
    && (forall k :: k in ranges ==> 1 <= k <= n && ranges[k] != [] && ranges[k] == LineRanges(comments, lines, k - 1))
    && (forall k :: 0 <= k < n && LineRanges(comments, lines, k) != [] ==> k + 1 in ranges)
  }

  function LineRanges(comments: seq<Span>, lines: seq<string>, k: nat): seq<Span>
    requires k < |lines|
  {
    Clipped(comments, LineOffset(lines, k), |lines[k]|)
  }

  function WithRanges(ranges: map<nat, seq<Span>>, line: nat, here: seq<Span>): map<nat, seq<Span>> {
    if here == [] then ranges else ranges[line := here]
  }

  lemma {:induction false} ClippedNext(comments: seq<Span>, j: nat, from: nat, len: nat)
    requires j < |comments|
    ensures var here := Clipped(comments[..j], from, len);
            Clipped(comments[..j + 1], from, len)
              == if Touches(comments[j], from, len) then here + [Clip(comments[j], from, len)] else here
  {
    hide Clipped;
    assert comments[..j + 1] == comments[..j] + [comments[j]];
    ClippedSnoc(comments[..j], comments[j], from, len);
  }

  lemma OneMore(before: map<nat, seq<Span>>, line: nat, here: seq<Span>)
    requires line !in before
    ensures var ranges := WithRanges(before, line, here);
            && (if line in ranges then ranges[line] else []) == here
            && forall c :: ranges[line := here + [c]] == WithRanges(before, line, here + [c])
  {}

  lemma NoneYet(before: map<nat, seq<Span>>, line: nat, comments: seq<Span>, from: nat, len: nat)
    ensures WithRanges(before, line, Clipped(comments[..0], from, len)) == before
  {}

  lemma NoRanges(comments: seq<Span>, lines: seq<string>)
    ensures RangesOf(map[], comments, lines, 0)
  {}

  lemma KeysBelow(ranges: map<nat, seq<Span>>, comments: seq<Span>, lines: seq<string>, n: nat)
    requires n <= |lines| && RangesOf(ranges, comments, lines, n)
    ensures n + 1 !in ranges
  {}

  lemma RangesNext(before: map<nat, seq<Span>>, comments: seq<Span>, lines: seq<string>, n: nat)
    requires n < |lines| && RangesOf(before, comments, lines, n)
    ensures RangesOf(WithRanges(before, n + 1, LineRanges(comments, lines, n)), comments, lines, n + 1)
  {
    hide LineRanges;
  }

  /** `htmlCommentRanges` */
  method HtmlCommentRanges(nodes: seq<HtmlNode>, lines: seq<string>) returns (ranges: map<nat, seq<Span>>)
    ensures RangesOf(ranges, AllComments(nodes), lines, |lines|)
  {
    var comments := [];
    for i := 0 to |nodes|
      invariant comments == AllComments(nodes[..i])
    {
      assert nodes[..i + 1][..i] == nodes[..i];
      comments := NodeComments(nodes[i], comments);
    }
    assert nodes[..|nodes|] == nodes;
    ranges := map[];
    hide Clipped, AllComments, WithRanges, RangesOf;
    var lineOffset := 0;
    NoRanges(comments, lines);
    for index := 0 to |lines|
      invariant lineOffset == LineOffset(lines, index)
      invariant RangesOf(ranges, comments, lines, index)
    {
      KeysBelow(ranges, comments, lines, index);
      RangesNext(ranges, comments, lines, index);
      ranges := ClipToLine(comments, lineOffset, |lines[index]|, index + 1, ranges);
      lineOffset := lineOffset + |lines[index]| + 1;
    }
  }

  /** The inner loop of `htmlCommentRanges`: one line against every comment. */
  method ClipToLine(comments: seq<Span>, lineOffset: nat, len: nat, line: nat, before: map<nat, seq<Span>>)
    returns (ranges: map<nat, seq<Span>>)
    requires line !in before
    ensures ranges == WithRanges(before, line, Clipped(comments, lineOffset, len))
  {
    ranges := before;
    hide Clipped, WithRanges;
    NoneYet(before, line, comments, lineOffset, len);
    var lineEnd := lineOffset + len;
    for j := 0 to |comments|
      invariant ranges == WithRanges(before, line, Clipped(comments[..j], lineOffset, len))
    {
      var c := comments[j];
      ClippedNext(comments, j, lineOffset, len);
      OneMore(before, line, Clipped(comments[..j], lineOffset, len));
      var from, to := Max(c.start, lineOffset), Min(c.end, lineEnd);
      var coversEmptyLine := len == 0 && c.start <= lineOffset && c.end > lineOffset;
      if from < to || coversEmptyLine {
        var lineRanges := if line in ranges then ranges[line] else [];
        ranges := ranges[line := lineRanges + [Span(from - lineOffset, to - lineOffset)]];
      }
    }
    assert comments[..|comments|] == comments;
  }

  // ----- the sweep

  /** `raw.slice(a, b)`: clamped to the text, empty when the bounds cross. */
  function Slice(raw: string, a: nat, b: nat): string {
    if a <= Min(b, |raw|) then raw[a..Min(b, |raw|)] else ""
  }

  /** `text.trim().length > 0` */
  predicate HasInk(text: string) {
    !Blank(text)
  }

  lemma HasInkAppend(a: string, b: string)
    ensures HasInk(a + b) <==> HasInk(a) || HasInk(b)
  {
    if i :| 0 <= i < |a| && !IsSpace(a[i]) { assert (a + b)[i] == a[i]; }
    if i :| 0 <= i < |b| && !IsSpace(b[i]) { assert (a + b)[|a| + i] == b[i]; }
  }

  /** Some character before `limit` is not white space and lies outside every span. */
  ghost predicate InkOutside(raw: string, spans: seq<Span>, limit: nat) {
    exists p: nat :: p < limit && Visible(raw, spans, p)
  }

  ghost predicate Visible(raw: string, spans: seq<Span>, p: nat) {
    p < |raw| && !IsSpace(raw[p]) && !Covered(spans, p)
  }

  function ByStart(): Comparator<Span> {
    (a: Span, b: Span) => a.start - b.start
  }

  /** The ranges in order of their start. */
  function SortedRanges(ranges: seq<Span>): (r: seq<Span>)
    ensures forall c :: c in r <==> c in ranges
    ensures forall i, j :: 0 <= i < j < |r| ==> r[i].start <= r[j].start
  {
    assert forall a, b :: ByStart()(a, b) <= 0 <==> a.start <= b.start;
    SortMembers(ranges, ByStart());
    SortSorts(ranges, ByStart());
    Sort(ranges, ByStart())
  }

  /** The sweep has passed `done`: the last of them starts at `limit`, and they reach to `cursor`. */
  ghost predicate Swept(done: seq<Span>, limit: nat, cursor: nat) {
    && limit <= cursor
    && (forall c :: c in done ==> c.start <= limit && c.end <= cursor)
    && (limit < cursor ==> exists c :: c in done && c.end == cursor)
  }

  /** Beyond `limit`, exactly the characters from `cursor` on are outside. */
  lemma {:induction false} SweepSegment(raw: string, done: seq<Span>, limit: nat, cursor: nat, upto: nat)
    requires Swept(done, limit, cursor) && limit <= upto
    ensures InkOutside(raw, done, upto) <==> InkOutside(raw, done, limit) || HasInk(Slice(raw, cursor, upto))
  {
    var slice := Slice(raw, cursor, upto);
    if i :| 0 <= i < |slice| && !IsSpace(slice[i]) {
      assert Visible(raw, done, cursor + i);
    }
    if p: nat :| p < upto && Visible(raw, done, p) {
      assert limit <= p < cursor ==> exists c :: c in done && c.end == cursor && InSpan(c, p);
      assert p >= limit ==> p >= cursor && slice[p - cursor] == raw[p];
    }
  }

  lemma {:induction false} SweepNext(raw: string, done: seq<Span>, limit: nat, cursor: nat, next: Span)
    requires Swept(done, limit, cursor) && limit <= next.start <= next.end
    ensures Swept(done + [next], next.start, Max(cursor, next.end))
    ensures InkOutside(raw, done + [next], next.start) <==> InkOutside(raw, done, next.start)
  {
    if cursor <= next.end {
      assert next in done + [next];
    } else {
      assert exists c :: c in done + [next] && c.end == cursor;
    }
    forall p: nat | p < next.start ensures Visible(raw, done + [next], p) <==> Visible(raw, done, p) {
      CoveredAppend(done, [next], p);
      CoveredOne(next, p);
    }
  }

  function LastStart(sorted: seq<Span>, k: nat): nat
    requires k <= |sorted|
  {
    if k == 0 then 0 else sorted[k - 1].start
  }

  /** What the sweep has gathered after `k` ranges. */
  ghost predicate SweptTo(raw: string, sorted: seq<Span>, k: nat, cursor: nat, visible: string)
    requires k <= |sorted|
  {
    var limit := LastStart(sorted, k);
    Swept(sorted[..k], limit, cursor) && (HasInk(visible) <==> InkOutside(raw, sorted[..k], limit))
  }

  ghost predicate InOrder(sorted: seq<Span>) {
    && (forall c :: c in sorted ==> c.start <= c.end)
    && (forall i, j :: 0 <= i < j < |sorted| ==> sorted[i].start <= sorted[j].start)
  }

  lemma {:induction false} SweepStep(raw: string, sorted: seq<Span>, k: nat, cursor: nat, visible: string)
    requires k < |sorted| && InOrder(sorted) && SweptTo(raw, sorted, k, cursor, visible)
    ensures SweptTo(raw, sorted, k + 1, Max(cursor, sorted[k].end), visible + Slice(raw, cursor, sorted[k].start))
  {
    var done, limit, next := sorted[..k], LastStart(sorted, k), sorted[k];
    assert next in sorted;
    assert limit <= next.start;
    hide Swept, InkOutside, HasInk, Slice, InOrder;
    SweepSegment(raw, done, limit, cursor, next.start);
    SweepNext(raw, done, limit, cursor, next);
    HasInkAppend(visible, Slice(raw, cursor, next.start));
    assert sorted[..k + 1] == done + [next];
  }

  lemma SortedRangesFit(ranges: seq<Span>)
    requires forall c :: c in ranges ==> c.start <= c.end
    ensures InOrder(SortedRanges(ranges))
  {
    hide SortedRanges;
  }

  /** `hasRenderedTextOutsideComments` */
  method HasRenderedTextOutsideComments(raw: string, ranges: Option<seq<Span>>) returns (shown: bool)
    requires ranges.Some? ==> forall c :: c in ranges.value ==> c.start <= c.end
    ensures shown <==> ranges.None? || InkOutside(raw, ranges.value, |raw|)
  {
    if ranges.None? { return true; }
    var sorted := SortedRanges(ranges.value);
    SortedRangesFit(ranges.value);
    SameInk(raw, sorted, ranges.value);
    hide *;
    var cursor := 0;
    var visible := "";
    NothingSwept(raw, sorted);
    for k := 0 to |sorted|
      invariant SweptTo(raw, sorted, k, cursor, visible)
    {
      SweepStep(raw, sorted, k, cursor, visible);
      visible := visible + Slice(raw, cursor, sorted[k].start);
      cursor := Max(cursor, sorted[k].end);
    }
    SweepRest(raw, sorted, cursor, visible);
    visible := visible + Slice(raw, cursor, |raw|);
    shown := HasInk(visible);
  }

  lemma NothingSwept(raw: string, sorted: seq<Span>)
    ensures SweptTo(raw, sorted, 0, 0, "")
  {}

  /** The last slice runs to the end of the line, even when a range starts beyond it. */
  lemma {:induction false} SweepRest(raw: string, sorted: seq<Span>, cursor: nat, visible: string)
    requires SweptTo(raw, sorted, |sorted|, cursor, visible)
    ensures HasInk(visible + Slice(raw, cursor, |raw|)) <==> InkOutside(raw, sorted, |raw|)
  {
    var limit := LastStart(sorted, |sorted|);
    assert sorted[..|sorted|] == sorted;
    HasInkAppend(visible, Slice(raw, cursor, |raw|));
    SweepSegment(raw, sorted, limit, cursor, Max(limit, |raw|));
    assert Slice(raw, cursor, Max(limit, |raw|)) == Slice(raw, cursor, |raw|);
    assert forall p: nat :: Visible(raw, sorted, p) ==> p < |raw|;
  }

  lemma {:induction false} SameInk(raw: string, a: seq<Span>, b: seq<Span>)
    requires forall c :: c in a <==> c in b
    ensures InkOutside(raw, a, |raw|) <==> InkOutside(raw, b, |raw|)
  {
    assert forall p: nat :: Visible(raw, a, p) <==> Visible(raw, b, p);
  }

  // ----- prose lines

  /**
   * What a reader sees of a line: it shows when no comment lies on it, or when some
   * character of it that is not white space lies outside every comment.
   */
  ghost predicate Shown(source: string, nodes: seq<HtmlNode>, from: nat, len: nat) {
    || (forall p: nat :: from <= p < from + Max(len, 1) ==> !InComment(nodes, p))
    || (exists p: nat :: from <= p < from + len && p < |source| && !IsSpace(source[p]) && !InComment(nodes, p))
  }

  ghost predicate InCode(nodes: seq<CodeNode>, line: nat) {
    exists node :: node in nodes && node.first <= line <= node.last
  }

  ghost predicate IsProse(source: string, html: seq<HtmlNode>, code: seq<CodeNode>, i: nat)
    requires i < |SplitChar(source, '\n')|
  {
    var lines := SplitChar(source, '\n');
    !InCode(code, i + 1) && Shown(source, html, LineOffset(lines, i), |lines[i]|)
  }

  /** The kept lines among the first `n`: in order, verbatim, and exactly the prose lines. */
  ghost predicate KeptTo(kept: seq<ProseLine>, source: string, html: seq<HtmlNode>, code: seq<CodeNode>, n: nat)
    requires n <= |SplitChar(source, '\n')|
  {
    var lines := SplitChar(source, '\n');
    && Ascending(kept, n)
    && (forall x :: x in kept ==> x.index >= 1 && x.raw == lines[x.index - 1])
    && (forall i :: 0 <= i < n ==> (ProseLine(i + 1, lines[i]) in kept <==> IsProse(source, html, code, i)))
  }

  ghost predicate Ascending(kept: seq<ProseLine>, n: nat) {
    && (forall a, b :: 0 <= a < b < |kept| ==> kept[a].index < kept[b].index)
    && (forall x :: x in kept ==> x.index <= n)
  }

  lemma {:induction false} AscendingNext(kept: seq<ProseLine>, line: ProseLine)
    requires line.index >= 1 && Ascending(kept, line.index - 1)
    ensures Ascending(kept, line.index) && Ascending(kept + [line], line.index) && line !in kept
    ensures forall x :: x in kept + [line] <==> x in kept || x == line
  {
    forall a | 0 <= a < |kept| ensures kept[a].index < line.index {
      assert kept[a] in kept;
    }
  }

  /** Clipped columns and source offsets agree about one line. */
  lemma {:induction false} LineShows(source: string, nodes: seq<HtmlNode>, i: nat)
    requires i < |SplitChar(source, '\n')|
    ensures var lines := SplitChar(source, '\n');
            var here := LineRanges(AllComments(nodes), lines, i);
            Shown(source, nodes, LineOffset(lines, i), |lines[i]|) <==>
              here == [] || InkOutside(lines[i], here, |lines[i]|)
  {
    var lines := SplitChar(source, '\n');
    JoinSplit(source, '\n');
    JoinedLine(lines, '\n', i);
    ShownByColumns(source, nodes, LineOffset(lines, i), lines[i]);
  }

  lemma {:induction false} ShownByColumns(source: string, nodes: seq<HtmlNode>, from: nat, raw: string)
    requires from + |raw| <= |source| && source[from..from + |raw|] == raw
    ensures var here := Clipped(AllComments(nodes), from, |raw|);
            Shown(source, nodes, from, |raw|) <==> here == [] || InkOutside(raw, here, |raw|)
  {
    hide Clipped, AllComments, InComment, Covered, IsSpace;
    var all := AllComments(nodes);
    var here := Clipped(all, from, |raw|);
    ClippedSome(all, from, |raw|);
    forall p: nat ensures Covered(all, p) <==> InComment(nodes, p) {
      AllCommentsCover(nodes, p);
    }
    forall p: nat | p < |raw|
      ensures Visible(raw, here, p) <==> !IsSpace(source[from + p]) && !InComment(nodes, from + p)
    {
      ClippedCovers(all, from, |raw|, p);
      assert raw[p] == source[from + p];
    }
    if p: nat :| from <= p < from + |raw| && !IsSpace(source[p]) && !InComment(nodes, p) {
      assert Visible(raw, here, p - from);
    }
    if p: nat :| p < |raw| && Visible(raw, here, p) {
      assert from <= from + p < from + |raw|;
    }
  }

  /** `markdownProseLines` */
  method MarkdownProseLines(source: string, html: seq<HtmlNode>, code: seq<CodeNode>) returns (kept: seq<ProseLine>)
    ensures KeptTo(kept, source, html, code, |SplitChar(source, '\n')|)
  {
    var lines := SplitChar(source, '\n');
    var comments := HtmlCommentRanges(html, lines);
    var fenced := FencedLines(code);
    kept := [];
    NothingKept(source, html, code);
    hide *;
    for i := 0 to |lines|
      invariant KeptTo(kept, source, html, code, i)
    {
      KeepNext(kept, source, html, code, i);
      ProseMeans(source, html, code, i);
      if i + 1 !in fenced {
        var here := if i + 1 in comments then Some(comments[i + 1]) else None;
        LineShows(source, html, i);
        ClippedSpans(html, lines, i);
        LookUp(comments, AllComments(html), lines, i);
        var shown := HasRenderedTextOutsideComments(lines[i], here);
        if shown {
          kept := kept + [ProseLine(i + 1, lines[i])];
        }
      }
    }
  }

  lemma {:induction false} NothingKept(source: string, html: seq<HtmlNode>, code: seq<CodeNode>)
    ensures KeptTo([], source, html, code, 0)
  {}

  lemma {:induction false} KeepNext(kept: seq<ProseLine>, source: string, html: seq<HtmlNode>, code: seq<CodeNode>,
                                    i: nat)
    requires i < |SplitChar(source, '\n')| && KeptTo(kept, source, html, code, i)
    ensures var line := ProseLine(i + 1, SplitChar(source, '\n')[i]);
            KeptTo(if IsProse(source, html, code, i) then kept + [line] else kept, source, html, code, i + 1)
  {
    hide IsProse, SplitChar, Ascending;
    var line := ProseLine(i + 1, SplitChar(source, '\n')[i]);
    AscendingNext(kept, line);
  }

  lemma ProseMeans(source: string, html: seq<HtmlNode>, code: seq<CodeNode>, i: nat)
    requires i < |SplitChar(source, '\n')|
    ensures var lines := SplitChar(source, '\n');
            IsProse(source, html, code, i) <==>
              !InCode(code, i + 1) && Shown(source, html, LineOffset(lines, i), |lines[i]|)
  {}

  lemma LookUp(ranges: map<nat, seq<Span>>, comments: seq<Span>, lines: seq<string>, k: nat)
    requires k < |lines| && RangesOf(ranges, comments, lines, |lines|)
    ensures var here := LineRanges(comments, lines, k);
            if k + 1 in ranges then ranges[k + 1] == here && here != [] else here == []
  {}

  lemma ClippedSpans(nodes: seq<HtmlNode>, lines: seq<string>, k: nat)
    requires k < |lines|
    ensures forall c :: c in LineRanges(AllComments(nodes), lines, k) ==> c.start <= c.end
  {}

  method FencedLines(nodes: seq<CodeNode>) returns (fenced: set<nat>)
    ensures forall line: nat :: line in fenced <==> InCode(nodes, line)
  {
    fenced := {};
    for i := 0 to |nodes|
      invariant forall line: nat :: line in fenced <==> InCode(nodes[..i], line)
    {
      var node := nodes[i];
      ghost var before := fenced;
      var line := node.first;
      while line <= node.last
        invariant node.first <= line
        invariant forall l: nat :: l in fenced <==> l in before || (node.first <= l < line && l <= node.last)
      {
        fenced := fenced + {line};
        line := line + 1;
      }
      assert nodes[..i + 1] == nodes[..i] + [node];
      forall l: nat ensures l in fenced <==> InCode(nodes[..i + 1], l) {
        assert InCode(nodes[..i], l) || node.first <= l <= node.last
          ==> exists n :: n in nodes[..i + 1] && n.first <= l <= n.last;
      }
    }
    assert nodes[..|nodes|] == nodes;
  }
}
