/**
 * Link rewriting in scripts/project-doc-site.ts: where the destination of a raw link,
 * image or definition lies, and how the new destinations are spliced in.
 */
module LinkProjection {
  import opened Wrappers
  import opened Text
  import opened Sorting

  datatype Kind = Link | Image | Definition

  datatype Range = Range(start: nat, end: nat)

  datatype RangeError = NoLabelEnd | NoSeparator | NoInlineDestination | NoAngleEnd

  // ----- the scans, as functions of the text and the position

  function IndexOfChar(s: string, c: char, i: nat): (r: int)
    ensures r == -1 || i <= r < |s|
    decreases |s| - i
  {
    if i >= |s| then -1 else if s[i] == c then i else IndexOfChar(s, c, i + 1)
  }

  function SkipSpace(s: string, i: nat): (r: nat)
    ensures i <= r && (r < |s| ==> !IsSpace(s[r])) && (i <= |s| ==> r <= |s|)
    decreases |s| - i
  {
    if i < |s| && IsSpace(s[i]) then SkipSpace(s, i + 1) else i
  }

  /** The bracket that closes the label, from inside it at the given depth; a backslash hides the next character. */
  function ScanLabel(s: string, i: nat, depth: int): (r: int)
    ensures r == -1 || i <= r < |s|
    decreases |s| - i
  {
    if i >= |s| then -1
    else if s[i] == '\\' then ScanLabel(s, i + 2, depth)
    else if s[i] == '[' then ScanLabel(s, i + 1, depth + 1)
    else if s[i] == ']' then if depth - 1 == 0 then i else ScanLabel(s, i + 1, depth - 1)
    else ScanLabel(s, i + 1, depth)
  }

  function LabelEndOf(s: string): (r: int)
    ensures r == -1 || 0 <= r < |s|
  {
    var first := IndexOfChar(s, '[', 0);
    if first == -1 then -1 else ScanLabel(s, first, 0)
  }

  /** The closing angle bracket. */
  function ScanAngle(s: string, i: nat): (r: int)
    ensures r == -1 || i <= r < |s|
    decreases |s| - i
  {
    if i >= |s| then -1
    else if s[i] == '\\' then ScanAngle(s, i + 2)
    else if s[i] == '>' then i
    else ScanAngle(s, i + 1)
  }

  /** The end of a destination without angle brackets: a closing parenthesis or a space outside parentheses. */
  function ScanPlain(s: string, i: nat, depth: nat): (r: nat)
    ensures r <= |s| && (i <= |s| ==> i <= r)
    decreases |s| - i
  {
    if i >= |s| then |s|
    else if s[i] == '\\' then ScanPlain(s, i + 2, depth)
    else if s[i] == '(' then ScanPlain(s, i + 1, depth + 1)
    else if s[i] == ')' then if depth == 0 then i else ScanPlain(s, i + 1, depth - 1)
    else if IsSpace(s[i]) && depth == 0 then i
    else ScanPlain(s, i + 1, depth)
  }

  /** Where the destination begins, angle bracket included. */
  function StartOf(raw: string, kind: Kind): Result<nat, RangeError> {
    var close := LabelEndOf(raw);
    if close == -1 then Err(NoLabelEnd)
    else if kind.Definition? then
      var colon := IndexOfChar(raw, ':', close + 1);
      if colon == -1 then Err(NoSeparator) else Ok(SkipSpace(raw, colon + 1))
    else if close + 1 < |raw| && raw[close + 1] == '(' then Ok(SkipSpace(raw, close + 2))
    else Err(NoInlineDestination)
  }

  function RangeOf(raw: string, kind: Kind): Result<Range, RangeError> {
    match StartOf(raw, kind)
    case Err(e) => Err(e)
    case Ok(start) =>
      if start < |raw| && raw[start] == '<' then
        var end := ScanAngle(raw, start + 1);
        if end == -1 then Err(NoAngleEnd) else Ok(Range(start + 1, end))
      else Ok(Range(start, ScanPlain(raw, start, 0)))
  }

  // ----- what the end of a label is

  /** Reading from `from`, position `i` is not hidden by a backslash that is itself read. */
  predicate Visible(s: string, from: nat, i: nat) {
    i <= from || i > |s| || !(s[i - 1] == '\\' && Visible(s, from, i - 1))
  }

  datatype Pair = Pair(open: char, close: char)

  const SQUARE := Pair('[', ']')
  const ROUND := Pair('(', ')')

  /** Visible opening brackets less visible closing ones in `from..to`. */
  function Depth(s: string, pair: Pair, from: nat, to: nat): int
    requires to <= |s|
  {
    if to <= from then 0
    else Depth(s, pair, from, to - 1) + if Visible(s, from, to - 1) then Bracket(pair, s[to - 1]) else 0
  }

  function Bracket(pair: Pair, c: char): int {
    if c == pair.open then 1 else if c == pair.close then -1 else 0
  }

  /** A visible closing bracket at which the visible brackets from `first` balance. */
  predicate Closes(s: string, first: nat, e: nat) {
    first <= e < |s| && s[e] == ']' && Visible(s, first, e) && Depth(s, SQUARE, first, e + 1) == 0
  }

  /** `e` is the first position that closes the label opened by the first bracket; -1 stands for none. */
  ghost predicate IsLabelEnd(s: string, e: int) {
    if e == -1 then forall first: nat, i: nat :: IsFirstBracket(s, first) ==> !Closes(s, first, i)
    else e >= 0 && exists first: nat :: IsFirstBracket(s, first) && IsFirstClose(s, first, e)
  }

  ghost predicate IsFirstBracket(s: string, first: nat) {
    first < |s| && s[first] == '[' && '[' !in s[..first]
  }

  ghost predicate IsFirstClose(s: string, first: nat, e: nat) {
    Closes(s, first, e) && forall i: nat :: i < e ==> !Closes(s, first, i)
  }

  /** From a visible position with the right depth, the scan stops at the next closing one. */
  lemma {:induction false} ScanCloses(s: string, first: nat, i: nat, depth: int)
    requires first <= i && Visible(s, first, i) && (i <= |s| ==> depth == Depth(s, SQUARE, first, i))
    ensures var r := ScanLabel(s, i, depth);
            if r == -1 then forall e: nat :: i <= e ==> !Closes(s, first, e)
            else Closes(s, first, r) && forall e: nat :: i <= e < r ==> !Closes(s, first, e)
    decreases |s| - i
  {
    if i < |s| {
      var next := if s[i] == '\\' then i + 2 else i + 1;
      var after := depth + Bracket(SQUARE, s[i]);
      assert Visible(s, first, i + 1) <==> s[i] != '\\';
      assert Depth(s, SQUARE, first, i + 1) == after;
      if s[i] == '\\' { HiddenStep(s, SQUARE, first, i); }
      if !(s[i] == ']' && after == 0) {
        ScanCloses(s, first, next, after);
        assert forall e: nat :: i <= e < next ==> !Closes(s, first, e);
      }
    }
  }

  lemma HiddenStep(s: string, pair: Pair, first: nat, i: nat)
    requires first <= i < |s| && s[i] == '\\' && Visible(s, first, i) && '\\' !in {pair.open, pair.close}
    ensures !Visible(s, first, i + 1) && Visible(s, first, i + 2)
    ensures i + 2 <= |s| ==> Depth(s, pair, first, i + 2) == Depth(s, pair, first, i)
  {
    assert i + 2 <= |s| ==> Depth(s, pair, first, i + 2) == Depth(s, pair, first, i + 1);
  }

  lemma {:induction false} FirstBracket(s: string, i: nat)
    requires i <= |s| && '[' !in s[..i]
    ensures var first := IndexOfChar(s, '[', i); if first == -1 then '[' !in s else IsFirstBracket(s, first)
    decreases |s| - i
  {
    if i < |s| && s[i] != '[' {
      assert s[..i + 1] == s[..i] + [s[i]];
      FirstBracket(s, i + 1);
    }
    assert s[..|s|] == s;
  }

  /** The scan answers with the end of the label, and there is only one. */
  lemma {:induction false} LabelEndMeans(s: string)
    ensures IsLabelEnd(s, LabelEndOf(s))
    ensures forall e: int :: IsLabelEnd(s, e) ==> e == LabelEndOf(s)
  {
    FirstBracket(s, 0);
    var first := IndexOfChar(s, '[', 0);
    hide Closes;
    if first != -1 {
      ScanCloses(s, first, first, 0);
      NothingBefore(s, first);
    }
    forall a: nat, b: nat | IsFirstBracket(s, a) && IsFirstBracket(s, b) ensures a == b {
      if a < b { BracketIn(s, a, b); }
      if b < a { BracketIn(s, b, a); }
    }
  }

  lemma BracketIn(s: string, a: nat, b: nat)
    requires a < b <= |s|
    ensures s[a] == '[' ==> '[' in s[..b]
  {
    assert s[..b][a] == s[a];
  }

  lemma NothingBefore(s: string, first: nat)
    ensures forall e: nat :: e < first ==> !Closes(s, first, e)
  {}

  // ----- what a destination is

  /** The mark behind the label: the first colon of a definition, the parenthesis right behind the label otherwise. */
  predicate MarkAt(raw: string, kind: Kind, close: nat, mark: nat) {
    if kind.Definition? then close < mark < |raw| && raw[mark] == ':' && ':' !in raw[close + 1..mark]
    else mark == close + 1 < |raw| && raw[mark] == '('
  }

  /** The first position from `i` on that holds no white space, or the end. */
  predicate FirstSolid(s: string, i: nat, r: nat) {
    i <= r <= |s| && Blank(s[i..r]) && (r < |s| ==> !IsSpace(s[r]))
  }

  ghost predicate BeginsAt(raw: string, kind: Kind, start: nat) {
    exists close: nat, mark: nat ::
      IsLabelEnd(raw, close) && MarkAt(raw, kind, close, mark) && FirstSolid(raw, mark + 1, start)
  }

  /** A visible closing angle bracket. */
  predicate ClosesAngle(s: string, from: nat, e: nat) {
    from <= e < |s| && s[e] == '>' && Visible(s, from, e)
  }

  /** A visible closing parenthesis or white space outside the parentheses opened since `from`. */
  predicate EndsPlain(s: string, from: nat, e: nat) {
    from <= e < |s| && Visible(s, from, e) && Depth(s, ROUND, from, e) == 0 && (s[e] == ')' || IsSpace(s[e]))
  }

  ghost predicate IsAngleEnd(s: string, from: nat, e: nat) {
    ClosesAngle(s, from, e) && forall i: nat :: i < e ==> !ClosesAngle(s, from, i)
  }

  ghost predicate NeverCloses(s: string, from: nat) {
    forall e: nat :: !ClosesAngle(s, from, e)
  }

  ghost predicate IsPlainEnd(s: string, from: nat, e: nat) {
    && from <= e <= |s| && (e < |s| ==> EndsPlain(s, from, e))
    && forall i: nat :: i < e ==> !EndsPlain(s, from, i)
  }

  /** What `destinationRange` answers, or which of its errors it throws. */
  ghost predicate IsDestination(raw: string, kind: Kind, r: Result<Range, RangeError>) {
    match r
    case Err(NoLabelEnd) => IsLabelEnd(raw, -1)
    case Err(NoSeparator) => kind.Definition? && NoMark(raw, kind)
    case Err(NoInlineDestination) => !kind.Definition? && NoMark(raw, kind)
    case Err(NoAngleEnd) =>
      exists start: nat :: BeginsAt(raw, kind, start) && start < |raw| && raw[start] == '<'
                           && NeverCloses(raw, start + 1)
    case Ok(Range(first, end)) =>
      exists start: nat :: BeginsAt(raw, kind, start) &&
        if start < |raw| && raw[start] == '<' then first == start + 1 && IsAngleEnd(raw, first, end)
        else first == start && IsPlainEnd(raw, first, end)
  }

  ghost predicate NoMark(raw: string, kind: Kind) {
    exists close: nat :: IsLabelEnd(raw, close) && forall mark: nat :: !MarkAt(raw, kind, close, mark)
  }

  lemma {:induction false} FirstOfChar(s: string, c: char, i: nat)
    requires i <= |s|
    ensures var r := IndexOfChar(s, c, i); if r == -1 then c !in s[i..] else s[r] == c && c !in s[i..r]
    decreases |s| - i
  {
    if i < |s| && s[i] != c {
      FirstOfChar(s, c, i + 1);
      var r := IndexOfChar(s, c, i + 1);
      assert s[i..] == [s[i]] + s[i + 1..];
      assert r != -1 ==> s[i..r] == [s[i]] + s[i + 1..r];
    }
  }

  lemma {:induction false} SpaceSkipped(s: string, i: nat)
    requires i <= |s|
    ensures FirstSolid(s, i, SkipSpace(s, i))
    decreases |s| - i
  {
    if i < |s| && IsSpace(s[i]) {
      SpaceSkipped(s, i + 1);
      assert s[i..SkipSpace(s, i)] == [s[i]] + s[i + 1..SkipSpace(s, i + 1)];
    }
  }

  lemma {:induction false} AngleMeans(s: string, from: nat, i: nat)
    requires from <= i && Visible(s, from, i)
    ensures var r := ScanAngle(s, i);
            if r == -1 then forall e: nat :: i <= e ==> !ClosesAngle(s, from, e)
            else ClosesAngle(s, from, r) && forall e: nat :: i <= e < r ==> !ClosesAngle(s, from, e)
    decreases |s| - i
  {
    if i < |s| && s[i] != '>' {
      var next := if s[i] == '\\' then i + 2 else i + 1;
      if s[i] == '\\' { HiddenStep(s, ROUND, from, i); }
      AngleMeans(s, from, next);
      assert forall e: nat :: i <= e < next ==> !ClosesAngle(s, from, e);
    }
  }

  lemma {:induction false} PlainMeans(s: string, from: nat, i: nat, depth: nat)
    requires from <= i && Visible(s, from, i) && (i <= |s| ==> depth == Depth(s, ROUND, from, i))
    ensures var r := ScanPlain(s, i, depth);
            && (r < |s| ==> i <= r && EndsPlain(s, from, r))
            && forall e: nat :: i <= e < r ==> !EndsPlain(s, from, e)
    decreases |s| - i
  {
    if i < |s| {
      PlainStep(s, i, depth);
      var next := if s[i] == '\\' then i + 2 else i + 1;
      assert Visible(s, from, i + 1) <==> s[i] != '\\';
      assert Depth(s, ROUND, from, i + 1) == depth + Bracket(ROUND, s[i]);
      if s[i] == '\\' {
        HiddenStep(s, ROUND, from, i);
        NoSpaceMark();
      }
      hide IsSpace, ScanPlain;
      if !((s[i] == ')' || IsSpace(s[i])) && depth == 0) {
        PlainMeans(s, from, next, depth + Bracket(ROUND, s[i]));
        assert forall e: nat :: i <= e < next ==> !EndsPlain(s, from, e);
      }
    }
  }

  lemma NoSpaceMark()
    ensures !IsSpace('\\') && !IsSpace('(') && !IsSpace(')')
  {}

  lemma {:induction false} StartMeans(raw: string, kind: Kind)
    ensures match StartOf(raw, kind)
            case Ok(start) => start <= |raw| && BeginsAt(raw, kind, start)
            case Err(NoLabelEnd) => IsLabelEnd(raw, -1)
            case Err(NoSeparator) => kind.Definition? && NoMark(raw, kind)
            case Err(NoInlineDestination) => !kind.Definition? && NoMark(raw, kind)
            case Err(NoAngleEnd) => false
  {
    LabelEndMeans(raw);
    hide IsLabelEnd, LabelEndOf, IsSpace, BeginsAt, SkipSpace, IndexOfChar;
    var close := LabelEndOf(raw);
    if close != -1 {
      if kind.Definition? {
        var colon := IndexOfChar(raw, ':', close + 1);
        FirstOfChar(raw, ':', close + 1);
        if colon != -1 { Begins(raw, kind, close, colon); }
      } else if close + 1 < |raw| && raw[close + 1] == '(' {
        Begins(raw, kind, close, close + 1);
      }
    }
  }

  lemma Begins(raw: string, kind: Kind, close: nat, mark: nat)
    requires IsLabelEnd(raw, close) && MarkAt(raw, kind, close, mark)
    ensures SkipSpace(raw, mark + 1) <= |raw| && BeginsAt(raw, kind, SkipSpace(raw, mark + 1))
  {
    SpaceSkipped(raw, mark + 1);
  }

  /** Kind by kind, the scans find the destination, or fail for want of just what they look for. */
  lemma {:induction false} DestinationMeans(raw: string, kind: Kind)
    ensures IsDestination(raw, kind, RangeOf(raw, kind))
  {
    StartMeans(raw, kind);
    hide StartOf, BeginsAt, NoMark, IsLabelEnd;
    match StartOf(raw, kind)
    case Err(_) =>
    case Ok(start) =>
      if start < |raw| && raw[start] == '<' {
        AngleMeans(raw, start + 1, start + 1);
        hide ClosesAngle;
        assert ScanAngle(raw, start + 1) != -1 ==> IsAngleEnd(raw, start + 1, ScanAngle(raw, start + 1));
      } else {
        PlainMeans(raw, start, start, 0);
        assert IsPlainEnd(raw, start, ScanPlain(raw, start, 0));
      }
  }

  // ----- the loops of the source

  method LabelEnd(source: string) returns (r: int)
    ensures IsLabelEnd(source, r)
    ensures r == LabelEndOf(source)
  {
    LabelEndMeans(source);
    hide IsLabelEnd;
    var first := IndexOfChar(source, '[', 0);
    if first == -1 { return -1; }
    var depth, index := 0, first;
    while index < |source|
      invariant 0 <= index && ScanLabel(source, first, 0) == ScanLabel(source, index, depth)
      decreases |source| - index
    {
      var c := source[index];
      if c == '\\' {
        index := index + 1;
      } else if c == '[' {
        depth := depth + 1;
      } else if c == ']' {
        depth := depth - 1;
        if depth == 0 { return index; }
      }
      index := index + 1;
    }
    return -1;
  }

  method DestinationRange(rawNode: string, kind: Kind) returns (r: Result<Range, RangeError>)
    ensures r == RangeOf(rawNode, kind)
    ensures IsDestination(rawNode, kind, r)
  {
    DestinationMeans(rawNode, kind);
    hide IsDestination;
    var endOfLabel := LabelEnd(rawNode);
    if endOfLabel == -1 { return Err(NoLabelEnd); }
    var start;
    if kind.Definition? {
      var colon := IndexOfChar(rawNode, ':', endOfLabel + 1);
      if colon == -1 { return Err(NoSeparator); }
      start := SkipSpace(rawNode, colon + 1);
    } else {
      if !(endOfLabel + 1 < |rawNode| && rawNode[endOfLabel + 1] == '(') { return Err(NoInlineDestination); }
      start := SkipSpace(rawNode, endOfLabel + 2);
    }
    assert StartOf(rawNode, kind) == Ok(start);
    hide StartOf, SkipSpace, IndexOfChar, LabelEndOf, IsSpace;
    if start < |rawNode| && rawNode[start] == '<' {
      var index := start + 1;
      while index < |rawNode|
        invariant ScanAngle(rawNode, start + 1) == ScanAngle(rawNode, index)
        decreases |rawNode| - index
      {
        if rawNode[index] == '\\' { index := index + 1; }
        else if rawNode[index] == '>' { return Ok(Range(start + 1, index)); }
        index := index + 1;
      }
      return Err(NoAngleEnd);
    }
    var depth: nat, index := 0, start;
    hide ScanPlain;
    while index < |rawNode|
      invariant ScanPlain(rawNode, start, 0) == ScanPlain(rawNode, index, depth)
      decreases |rawNode| - index
    {
      PlainStep(rawNode, index, depth);
      var c := rawNode[index];
      if c == '\\' {
        index := index + 1;
      } else if c == '(' {
        depth := depth + 1;
      } else if c == ')' {
        if depth == 0 { return Ok(Range(start, index)); }
        depth := depth - 1;
      } else if IsSpace(c) && depth == 0 {
        return Ok(Range(start, index));
      }
      index := index + 1;
    }
    PlainEnd(rawNode, index, depth);
    return Ok(Range(start, |rawNode|));
  }

  // ----- putting a new destination where the old one was

  function Spliced(raw: string, r: Range, dest: string): string
    requires r.start <= r.end <= |raw|
  {
    raw[..r.start] + dest + raw[r.end..]
  }

  ghost predicate Agree(a: string, b: string, n: nat) {
    n <= |a| && n <= |b| && a[..n] == b[..n]
  }

  lemma {:induction false} AgreeAt(a: string, b: string, n: nat, i: nat)
    requires Agree(a, b, n) && i < n
    ensures a[i] == b[i]
  {
    assert a[..n][i] == b[..n][i];
  }

  lemma {:induction false} IndexAgrees(a: string, b: string, n: nat, c: char, i: nat)
    requires Agree(a, b, n) && IndexOfChar(a, c, i) != -1 && IndexOfChar(a, c, i) < n
    ensures IndexOfChar(b, c, i) == IndexOfChar(a, c, i)
    decreases |a| - i
  {
    AgreeAt(a, b, n, i);
    if a[i] != c { IndexAgrees(a, b, n, c, i + 1); }
  }

  lemma {:induction false} LabelAgrees(a: string, b: string, n: nat, i: nat, depth: int)
    requires Agree(a, b, n) && ScanLabel(a, i, depth) != -1 && ScanLabel(a, i, depth) < n
    ensures ScanLabel(b, i, depth) == ScanLabel(a, i, depth)
    decreases |a| - i
  {
    AgreeAt(a, b, n, i);
    if a[i] == '\\' { LabelAgrees(a, b, n, i + 2, depth); }
    else if a[i] == '[' { LabelAgrees(a, b, n, i + 1, depth + 1); }
    else if a[i] == ']' { if depth != 1 { LabelAgrees(a, b, n, i + 1, depth - 1); } }
    else { LabelAgrees(a, b, n, i + 1, depth); }
  }

  lemma {:induction false} SkipAgrees(a: string, b: string, n: nat, i: nat)
    requires Agree(a, b, n) && i <= n == SkipSpace(a, i)
    ensures SkipSpace(b, i) == SkipSpace(b, n)
    decreases |a| - i
  {
    if i < n {
      AgreeAt(a, b, n, i);
      SkipAgrees(a, b, n, i + 1);
    }
  }

  /** The start depends only on the text before it, and on whether a space follows. */
  lemma {:induction false} StartAgrees(raw: string, other: string, kind: Kind)
    requires StartOf(raw, kind).Ok? && Agree(raw, other, StartOf(raw, kind).value)
    ensures StartOf(other, kind) == Ok(SkipSpace(other, StartOf(raw, kind).value))
  {
    var n, close := StartOf(raw, kind).value, LabelEndOf(raw);
    LabelEndAgrees(raw, other, n);
    hide IsSpace, Agree, LabelEndOf;
    if kind.Definition? {
      var colon := IndexOfChar(raw, ':', close + 1);
      IndexAgrees(raw, other, n, ':', close + 1);
      SkipAgrees(raw, other, n, colon + 1);
    } else {
      AgreeAt(raw, other, n, close + 1);
      AgreeShorter(raw, other, n);
      SkipAgrees(raw, other, n, close + 2);
    }
  }

  lemma {:induction false} AgreeShorter(a: string, b: string, n: nat)
    requires Agree(a, b, n)
    ensures n <= |a| && n <= |b|
  {}

  lemma {:induction false} LabelEndAgrees(a: string, b: string, n: nat)
    requires Agree(a, b, n) && LabelEndOf(a) != -1 && LabelEndOf(a) < n
    ensures LabelEndOf(b) == LabelEndOf(a)
  {
    IndexAgrees(a, b, n, '[', 0);
    LabelAgrees(a, b, n, IndexOfChar(a, '[', 0), 0);
  }

  // ----- destinations without angle brackets

  /** Scanning a destination from its start: it stops inside, or arrives at the end. */
  datatype Passage = Stops | Passes(depth: nat, hidesNext: bool)

  function Through(dest: string, i: nat, depth: nat): Passage
    decreases |dest| - i
  {
    if i >= |dest| then Passes(depth, i > |dest|)
    else if dest[i] == '\\' then Through(dest, i + 2, depth)
    else if dest[i] == '(' then Through(dest, i + 1, depth + 1)
    else if dest[i] == ')' then if depth == 0 then Stops else Through(dest, i + 1, depth - 1)
    else if IsSpace(dest[i]) && depth == 0 then Stops
    else Through(dest, i + 1, depth)
  }

  /** Nothing in `dest` or around it makes the scan stop early or late. */
  predicate Survives(dest: string, rest: string) {
    && (if dest != "" then dest[0] != '<' && !IsSpace(dest[0]) else rest == "" || !IsSpace(rest[0]))
    && Through(dest, 0, 0).Passes?
    && (rest == "" || Through(dest, 0, 0) == Passes(0, false))
  }

  lemma {:induction false} ThroughScan(a: string, dest: string, b: string, i: nat, depth: nat)
    requires i <= |dest| + 1
    ensures match Through(dest, i, depth)
            case Stops => ScanPlain(a + dest + b, |a| + i, depth) < |a| + |dest|
            case Passes(d, hidesNext) =>
              ScanPlain(a + dest + b, |a| + i, depth)
                == ScanPlain(a + dest + b, |a| + |dest| + if hidesNext then 1 else 0, d)
    decreases |dest| - i
  {
    hide IsSpace, ScanPlain;
    if i < |dest| {
      assert (a + dest + b)[|a| + i] == dest[i];
      PlainStep(a + dest + b, |a| + i, depth);
      if dest[i] == '\\' { ThroughScan(a, dest, b, i + 2, depth); }
      else if dest[i] == '(' { ThroughScan(a, dest, b, i + 1, depth + 1); }
      else if dest[i] == ')' { if depth > 0 { ThroughScan(a, dest, b, i + 1, depth - 1); } }
      else if !(IsSpace(dest[i]) && depth == 0) { ThroughScan(a, dest, b, i + 1, depth); }
    }
  }

  lemma PlainEnd(s: string, i: nat, depth: nat)
    requires i >= |s|
    ensures ScanPlain(s, i, depth) == |s|
  {}

  lemma PlainStep(s: string, i: nat, depth: nat)
    requires i < |s|
    ensures ScanPlain(s, i, depth) ==
      if s[i] == '\\' then ScanPlain(s, i + 2, depth)
      else if s[i] == '(' then ScanPlain(s, i + 1, depth + 1)
      else if s[i] == ')' then if depth == 0 then i else ScanPlain(s, i + 1, depth - 1)
      else if IsSpace(s[i]) && depth == 0 then i
      else ScanPlain(s, i + 1, depth)
  {
    hide IsSpace;
  }

  /** A scan ends at the end of the text or before a parenthesis or a space. */
  lemma {:induction false} ScanStopsAt(s: string, i: nat, depth: nat)
    ensures ScanPlain(s, i, depth) < |s| ==> s[ScanPlain(s, i, depth)] == ')' || IsSpace(s[ScanPlain(s, i, depth)])
    decreases |s| - i
  {
    if i < |s| {
      if s[i] == '\\' { ScanStopsAt(s, i + 2, depth); }
      else if s[i] == '(' { ScanStopsAt(s, i + 1, depth + 1); }
      else if s[i] == ')' { if depth > 0 { ScanStopsAt(s, i + 1, depth - 1); } }
      else if !(IsSpace(s[i]) && depth == 0) { ScanStopsAt(s, i + 1, depth); }
    }
  }

  lemma {:induction false} PlainScanIff(a: string, dest: string, b: string)
    requires b != "" ==> b[0] == ')' || IsSpace(b[0])
    ensures ScanPlain(a + dest + b, |a|, 0) == |a| + |dest| <==>
            Through(dest, 0, 0).Passes? && (b == "" || Through(dest, 0, 0) == Passes(0, false))
  {
    ThroughScan(a, dest, b, 0, 0);
    if b != "" { assert (a + dest + b)[|a| + |dest|] == b[0]; }
  }

  /**
   * For a destination without angle brackets: reading the rewritten node finds exactly the
   * new destination if and only if that destination survives the scan.
   */
  lemma {:induction false} PlainDestinationRoundTrip(raw: string, kind: Kind, dest: string)
    requires RangeOf(raw, kind).Ok? && StartOf(raw, kind) == Ok(RangeOf(raw, kind).value.start)
    ensures var r := RangeOf(raw, kind).value;
            && r.start <= r.end <= |raw|
            && (RangeOf(Spliced(raw, r, dest), kind) == Ok(Range(r.start, r.start + |dest|))
              <==> Survives(dest, raw[r.end..]))
  {
    var r := RangeOf(raw, kind).value;
    var a, b := raw[..r.start], raw[r.end..];
    var s := a + dest + b;
    assert s[..r.start] == a;
    StartAgrees(raw, s, kind);
    ScanStopsAt(raw, r.start, 0);
    PlainScanIff(a, dest, b);
    if dest != "" { assert s[r.start] == dest[0]; } else if b != "" { assert s[r.start] == b[0]; }
  }

  /** A destination with a space in it is cut short, in whatever node it is put. */
  lemma {:induction false} SpacedDestinationLost(raw: string, kind: Kind)
    requires RangeOf(raw, kind).Ok? && StartOf(raw, kind) == Ok(RangeOf(raw, kind).value.start)
    ensures var r := RangeOf(raw, kind).value;
            && r.start <= r.end <= |raw|
            && RangeOf(Spliced(raw, r, "a b"), kind) != Ok(Range(r.start, r.start + 3))
  {
    PlainDestinationRoundTrip(raw, kind, "a b");
    assert Through("a b", 0, 0) == Through("a b", 1, 0) == Stops;
  }

  /** What the rewriter inserts: no space, no backslash, parentheses paired, not an angle bracket first. */
  predicate PlainUrl(dest: string) {
    && dest != "" && dest[0] != '<'
    && (forall i | 0 <= i < |dest| :: !IsSpace(dest[i]) && dest[i] != '\\')
    && Balanced(dest, 0, 0)
  }

  predicate Balanced(dest: string, i: nat, depth: nat)
    decreases |dest| - i
  {
    if i >= |dest| then depth == 0
    else if dest[i] == '(' then Balanced(dest, i + 1, depth + 1)
    else if dest[i] == ')' then depth > 0 && Balanced(dest, i + 1, depth - 1)
    else Balanced(dest, i + 1, depth)
  }

  lemma {:induction false} BalancedPasses(dest: string, i: nat, depth: nat)
    requires i <= |dest| && forall j :: 0 <= j < |dest| ==> !IsSpace(dest[j]) && dest[j] != '\\'
    ensures Balanced(dest, i, depth) <==> Through(dest, i, depth) == Passes(0, false)
    decreases |dest| - i
  {
    if i < |dest| {
      if dest[i] == '(' { BalancedPasses(dest, i + 1, depth + 1); }
      else if dest[i] == ')' { if depth > 0 { BalancedPasses(dest, i + 1, depth - 1); } }
      else { BalancedPasses(dest, i + 1, depth); }
    }
  }

  /** Every plain URL is found again wherever it is put. */
  lemma {:induction false} PlainUrlSurvives(dest: string, rest: string)
    requires PlainUrl(dest)
    ensures Survives(dest, rest)
  {
    BalancedPasses(dest, 0, 0);
  }

  // ----- destinations in angle brackets

  /** No unhidden closing bracket inside, and the last character does not hide the real one. */
  predicate FitsAngle(dest: string, i: nat)
    decreases |dest| - i
  {
    if i >= |dest| then i == |dest|
    else if dest[i] == '\\' then FitsAngle(dest, i + 2)
    else dest[i] != '>' && FitsAngle(dest, i + 1)
  }

  lemma {:induction false} AngleScan(a: string, dest: string, b: string, i: nat)
    requires i <= |dest| && b != "" && b[0] == '>'
    ensures ScanAngle(a + dest + b, |a| + i) == |a| + |dest| <==> FitsAngle(dest, i)
    decreases |dest| - i
  {
    var s := a + dest + b;
    if i == |dest| {
      assert s[|a| + i] == b[0];
    } else {
      assert s[|a| + i] == dest[i];
      if dest[i] == '\\' {
        if i + 2 <= |dest| { AngleScan(a, dest, b, i + 2); }
      } else if dest[i] != '>' {
        AngleScan(a, dest, b, i + 1);
      }
    }
  }

  /** Inside angle brackets the new destination is found again if and only if it fits them. */
  lemma {:induction false} AngleDestinationRoundTrip(raw: string, kind: Kind, dest: string)
    requires RangeOf(raw, kind).Ok? && StartOf(raw, kind) != Ok(RangeOf(raw, kind).value.start)
    ensures var r := RangeOf(raw, kind).value;
            && r.start <= r.end < |raw|
            && (RangeOf(Spliced(raw, r, dest), kind) == Ok(Range(r.start, r.start + |dest|)) <==> FitsAngle(dest, 0))
  {
    var r, start := RangeOf(raw, kind).value, StartOf(raw, kind).value;
    AngleShape(raw, kind);
    AngleEndsAt(raw, r.start);
    hide RangeOf, StartOf, ScanAngle, FitsAngle, SkipSpace;
    var a, b := raw[..r.start], raw[r.end..];
    var s := a + dest + b;
    assert s[..start] == raw[..start] && s[start] == raw[start];
    StartAgrees(raw, s, kind);
    AtBracket(s, start);
    AngleShape(s, kind);
    AngleScan(a, dest, b, 0);
  }

  lemma AngleShape(raw: string, kind: Kind)
    requires StartOf(raw, kind).Ok?
    ensures var start := StartOf(raw, kind).value;
            if start < |raw| && raw[start] == '<' then
              var end := ScanAngle(raw, start + 1);
              RangeOf(raw, kind) == if end == -1 then Err(NoAngleEnd) else Ok(Range(start + 1, end))
            else RangeOf(raw, kind).Ok? ==> RangeOf(raw, kind).value.start == start
  {
    hide StartOf, ScanAngle, ScanPlain;
  }

  lemma AtBracket(s: string, i: nat)
    requires i < |s| && s[i] == '<'
    ensures SkipSpace(s, i) == i
  {}

  lemma {:induction false} AngleEndsAt(s: string, i: nat)
    ensures ScanAngle(s, i) != -1 ==> s[ScanAngle(s, i)] == '>'
    decreases |s| - i
  {
    if i < |s| {
      if s[i] == '\\' { AngleEndsAt(s, i + 2); }
      else if s[i] != '>' { AngleEndsAt(s, i + 1); }
    }
  }

  // ----- splicing all replacements

  datatype Replacement = Replacement(start: nat, end: nat, value: string)

  /** The ranges lie inside the text, do not overlap, and start at different places. */
  ghost predicate Apart(source: string, rs: seq<Replacement>) {
    && (forall i :: 0 <= i < |rs| ==> rs[i].start <= rs[i].end <= |source|)
    && (forall i, j :: 0 <= i < j < |rs| ==> Disjoint(rs[i], rs[j]))
  }

  predicate Disjoint(a: Replacement, b: Replacement) {
    a.start != b.start && (a.end <= b.start || b.end <= a.start)
  }

  /** In text order, each starting only after the one before has ended. */
  ghost predicate Ascending(source: string, rs: seq<Replacement>) {
    && (forall i :: 0 <= i < |rs| ==> rs[i].start <= rs[i].end <= |source|)
    && (forall i, j :: 0 <= i < j < |rs| ==> rs[i].end <= rs[j].start)
  }

  /** The text from `from` on with every range replaced at once and all else kept. */
  function Substituted(source: string, rs: seq<Replacement>, from: nat): string
    requires Ascending(source, rs) && from <= |source| && (rs != [] ==> from <= rs[0].start)
  {
    if rs == [] then source[from..]
    else
      AscendingSuffix(source, rs, 1);
      source[from..rs[0].start] + rs[0].value + Substituted(source, rs[1..], rs[0].end)
  }

  lemma {:induction false} AscendingSuffix(source: string, rs: seq<Replacement>, k: nat)
    requires Ascending(source, rs) && k <= |rs|
    ensures Ascending(source, rs[k..])
  {}

  function SpliceOne(text: string, r: Replacement): string {
    if r.start <= r.end <= |text| then text[..r.start] + r.value + text[r.end..] else text
  }

  function DescendingByStart(): Comparator<Replacement> {
    (a: Replacement, b: Replacement) => b.start - a.start
  }

  function Reversed(rs: seq<Replacement>): (r: seq<Replacement>)
    ensures |r| == |rs| && forall i :: 0 <= i < |rs| ==> r[i] == rs[|rs| - 1 - i]
  {
    seq(|rs|, i requires 0 <= i < |rs| => rs[|rs| - 1 - i])
  }

  lemma {:induction false} ReversedMembers(rs: seq<Replacement>)
    ensures multiset(Reversed(rs)) == multiset(rs)
  {
    if rs == [] {
      assert Reversed(rs) == [];
    } else {
      ReversedMembers(rs[1..]);
      assert Reversed(rs) == Reversed(rs[1..]) + [rs[0]];
      assert rs == [rs[0]] + rs[1..];
    }
  }

  /** The replacements from the back of the text to its front. */
  function BackToFront(rs: seq<Replacement>): seq<Replacement> {
    Sort(rs, DescendingByStart())
  }

  ghost predicate SameReplacements(a: seq<Replacement>, b: seq<Replacement>) {
    multiset(a) == multiset(b)
  }

  lemma SortedMembers(rs: seq<Replacement>)
    ensures SameReplacements(Reversed(BackToFront(rs)), rs)
  {
    ReversedMembers(BackToFront(rs));
  }

  /** Text before a later range is still the source's own. */
  lemma {:induction false} SubstitutedFrom(source: string, rs: seq<Replacement>, from: nat, mid: nat)
    requires Ascending(source, rs) && from <= mid <= |source| && (rs != [] ==> mid <= rs[0].start)
    ensures Substituted(source, rs, from) == source[from..mid] + Substituted(source, rs, mid)
  {
    if rs == [] {
      assert source[from..] == source[from..mid] + source[mid..];
    } else {
      var x := rs[0].start;
      assert source[from..x] == source[from..mid] + source[mid..x];
      AscendingSuffix(source, rs, 1);
      Associate(source[from..mid], source[mid..x], rs[0].value, Substituted(source, rs[1..], rs[0].end));
    }
  }

  lemma {:induction false} Associate(a: string, b: string, c: string, d: string)
    ensures (a + b) + c + d == a + (b + c + d)
  {}

  /** Splicing one more range in front of those already replaced. */
  lemma {:induction false} SpliceFront(source: string, r: Replacement, rs: seq<Replacement>)
    requires Ascending(source, [r] + rs)
    ensures Ascending(source, rs)
    ensures SpliceOne(Substituted(source, rs, 0), r) == Substituted(source, [r] + rs, 0)
  {
    assert ([r] + rs)[0] == r && ([r] + rs)[1..] == rs;
    AscendingSuffix(source, [r] + rs, 1);
    if rs != [] { assert ([r] + rs)[1] == rs[0]; }
    SubstitutedFrom(source, rs, 0, r.end);
    var text, rest := Substituted(source, rs, 0), Substituted(source, rs, r.end);
    assert text == source[..r.end] + rest;
    assert text[..r.start] == source[..r.start] && text[r.end..] == rest;
  }

  /** Where ranges are apart, sorting them by start puts them in text order. */
  lemma {:induction false} SortedAscending(source: string, rs: seq<Replacement>)
    requires Apart(source, rs)
    ensures Ascending(source, Reversed(BackToFront(rs)))
  {
    SortMembers(rs, DescendingByStart());
    SortedPairs(rs);
    forall i | 0 <= i < |BackToFront(rs)| ensures BackToFront(rs)[i].start <= BackToFront(rs)[i].end <= |source| {
      assert BackToFront(rs)[i] in BackToFront(rs);
    }
    hide BackToFront, Ascending;
    ReverseAscends(source, BackToFront(rs));
  }

  lemma {:induction false} SortedPairs(rs: seq<Replacement>)
    requires forall i, j :: 0 <= i < j < |rs| ==> Disjoint(rs[i], rs[j])
    requires forall i :: 0 <= i < |rs| ==> rs[i].start <= rs[i].end
    ensures forall i, j :: 0 <= i < j < |BackToFront(rs)| ==> BackToFront(rs)[j].end <= BackToFront(rs)[i].start
  {
    var cmp := DescendingByStart();
    var disjoint := (a: Replacement, b: Replacement) => Disjoint(a, b) && a.start <= a.end && b.start <= b.end;
    assert Pairwise(rs, disjoint);
    SortSorts(rs, cmp);
    SortPairwise(rs, cmp, disjoint);
    hide Sort;
    forall i, j | 0 <= i < j < |BackToFront(rs)| ensures BackToFront(rs)[j].end <= BackToFront(rs)[i].start {
      assert cmp(BackToFront(rs)[i], BackToFront(rs)[j]) <= 0 && disjoint(BackToFront(rs)[i], BackToFront(rs)[j]);
    }
  }

  lemma {:induction false} ReverseAscends(source: string, rs: seq<Replacement>)
    requires forall i :: 0 <= i < |rs| ==> rs[i].start <= rs[i].end <= |source|
    requires forall i, j :: 0 <= i < j < |rs| ==> rs[j].end <= rs[i].start
    ensures Ascending(source, Reversed(rs))
  {}

  /**
   * The replacement loop of `rewriteMarkdown`: working from the back, it replaces every
   * range at once and keeps every other character.
   */
  method SpliceAll(source: string, replacements: seq<Replacement>) returns (projected: string)
    requires Apart(source, replacements)
    ensures Ascending(source, Reversed(BackToFront(replacements)))
    ensures projected == Substituted(source, Reversed(BackToFront(replacements)), 0)
    ensures SameReplacements(Reversed(BackToFront(replacements)), replacements)
  {
    SortedMembers(replacements);
    var sorted := BackToFront(replacements);
    SortedAscending(source, replacements);
    ghost var ascending := Reversed(sorted);
    projected := source;
    NothingSpliced(source, ascending);
    hide *;
    for n := 0 to |sorted|
      invariant SplicedFrom(source, ascending, |sorted| - n, projected)
    {
      var r := sorted[n];
      SpliceNext(source, ascending, |sorted| - n - 1, projected);
      projected := projected[..r.start] + r.value + projected[r.end..];
    }
    AllSpliced(source, ascending, projected);
  }

  /** The ranges from number `k` on are replaced. */
  ghost predicate SplicedFrom(source: string, rs: seq<Replacement>, k: nat, projected: string) {
    && Ascending(source, rs) && k <= |rs| && Ascending(source, rs[k..])
    && projected == Substituted(source, rs[k..], 0)
  }

  lemma NothingSpliced(source: string, rs: seq<Replacement>)
    requires Ascending(source, rs)
    ensures SplicedFrom(source, rs, |rs|, source)
  {
    assert rs[|rs|..] == [] && source[0..] == source;
  }

  lemma AllSpliced(source: string, rs: seq<Replacement>, projected: string)
    requires SplicedFrom(source, rs, 0, projected)
    ensures Ascending(source, rs) && projected == Substituted(source, rs, 0)
  {
    assert rs[0..] == rs;
  }

  lemma {:induction false} SpliceNext(source: string, rs: seq<Replacement>, k: nat, projected: string)
    requires k < |rs| && SplicedFrom(source, rs, k + 1, projected)
    ensures rs[k].start <= rs[k].end <= |projected|
    ensures SplicedFrom(source, rs, k, projected[..rs[k].start] + rs[k].value + projected[rs[k].end..])
  {
    AscendingSuffix(source, rs, k);
    assert rs[k..] == [rs[k]] + rs[k + 1..];
    hide Ascending, Substituted;
    SpliceFront(source, rs[k], rs[k + 1..]);
    InBounds(source, rs[k + 1..], rs[k]);
  }

  lemma {:induction false} InBounds(source: string, rs: seq<Replacement>, r: Replacement)
    requires Ascending(source, [r] + rs)
    ensures Ascending(source, rs)
    ensures r.start <= r.end <= |Substituted(source, rs, 0)|
  {
    assert ([r] + rs)[0] == r && ([r] + rs)[1..] == rs;
    AscendingSuffix(source, [r] + rs, 1);
    if rs != [] {
      assert ([r] + rs)[1] == rs[0];
      SubstitutedFrom(source, rs, 0, r.end);
    }
  }
}
