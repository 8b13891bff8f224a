/** The line-driven prose parser of scripts/jsdoc.ts, against a grammar of its blocks. */
module JsDoc {
  import opened Wrappers
  import opened Text

  datatype Mode = Emit | Waterfall | Parallel | Serial | Bail

  // ----- lines

  /** `/^\s*\*?\s?/` and the white space at the end removed. */
  function StripMargin(line: string): string {
    var unindented := TrimStart(line);
    var inner := if StartsWith(unindented, "*") then unindented[1..] else unindented;
    TrimEnd(if inner != "" && IsSpace(inner[0]) then inner[1..] else inner)
  }

  /** A line is indentation and the rest: of the rest a star goes, then one white space character, and the end. */
  lemma {:induction false} MarginStripped(gap: string, rest: string)
    requires Blank(gap) && (rest == "" || !IsSpace(rest[0]))
    ensures StripMargin(gap + rest) ==
      if rest == "" || rest[0] != '*' then TrimEnd(rest)
      else if |rest| > 1 && IsSpace(rest[1]) then TrimEnd(rest[2..])
      else TrimEnd(rest[1..])
  {
    StartTrimmed(gap, rest);
    hide TrimEnd, IsSpace;
    if rest != "" && rest[0] == '*' {
      assert rest[..1] == "*";
      assert |rest| > 1 ==> rest[1..][1..] == rest[2..];
    }
  }

  function StripAll(lines: seq<string>): (r: seq<string>)
    ensures |r| == |lines|
  {
    seq(|lines|, i requires 0 <= i < |lines| => StripMargin(lines[i]))
  }

  /** The text between the comment's delimiters. */
  function InnerText(raw: string): string {
    var unopened := if StartsWith(raw, "/**") then raw[3..] else raw;
    if EndsWith(unopened, "*/") then unopened[..|unopened| - 2] else unopened
  }

  function InnerLines(raw: string): seq<string> {
    StripAll(SplitChar(InnerText(raw), '\n'))
  }

  lemma {:induction false} DelimitersGone(text: string)
    ensures InnerText("/**" + text + "*/") == text
    ensures !EndsWith(text, "*/") ==> InnerText("/**" + text) == text
    ensures !StartsWith(text + "*/", "/**") ==> InnerText(text + "*/") == text
    ensures !StartsWith(text, "/**") && !EndsWith(text, "*/") ==> InnerText(text) == text
  {
    assert ("/**" + text + "*/")[3..] == text + "*/" && ("/**" + text)[3..] == text;
    assert (text + "*/")[|text|..] == "*/" && (text + "*/")[..|text|] == text;
  }

  /** A comment written line by line is read line by line, each without its margin. */
  lemma {:induction false} LinesRead(lines: seq<string>)
    requires lines != [] && forall l :: l in lines ==> '\n' !in l
    ensures var inner := InnerLines("/**" + Join(lines, "\n") + "*/");
            |inner| == |lines| && forall i :: 0 <= i < |lines| ==> inner[i] == StripMargin(lines[i])
  {
    DelimitersGone(Join(lines, "\n"));
    SplitJoin(lines, '\n');
    hide InnerText, StripMargin;
  }

  predicate IsTag(line: string) {
    StartsWith(TrimStart(line), "@")
  }

  predicate IsWordChar(c: char) {
    'a' <= c <= 'z' || 'A' <= c <= 'Z' || '0' <= c <= '9' || c == '_'
  }

  ghost predicate Behind(line: string, gap: string, mark: string, rest: string) {
    Blank(gap) && line == gap + (mark + rest)
  }

  lemma {:induction false} MarkBehind(line: string, gap: string, mark: string, rest: string)
    requires Behind(line, gap, mark, rest) && mark != "" && !IsSpace(mark[0])
    ensures TrimStart(line) == mark + rest && StartsWith(TrimStart(line), mark) && TrimStart(line)[|mark|..] == rest
  {
    StartTrimmed(gap, mark + rest);
  }

  /** A tag line begins with an at sign, white space aside. */
  lemma {:induction false} TagMeans(line: string)
    ensures IsTag(line) <==> exists gap, rest :: Behind(line, gap, "@", rest)
  {
    var before := StartSplit(line);
    if IsTag(line) {
      var tagLine := TrimStart(line);
      assert tagLine == "@" + tagLine[1..];
      assert Behind(line, before, "@", tagLine[1..]);
    }
    if gap, rest :| Behind(line, gap, "@", rest) {
      MarkBehind(line, gap, "@", rest);
    }
  }

  /** The letters, digits and underscore of ASCII. */
  lemma WordChars(c: char)
    ensures IsWordChar(c) <==> var n := c as int; 48 <= n <= 57 || 65 <= n <= 90 || n == 95 || 97 <= n <= 122
  {}

  /** A mode tag is `@mode`, white space aside, with no word character behind it. */
  lemma {:induction false} ModeTagMeans(line: string)
    ensures IsModeTag(line) <==>
      exists gap, rest :: Behind(line, gap, "@mode", rest) && (rest == "" || !IsWordChar(rest[0]))
  {
    var before := StartSplit(line);
    AtSign();
    hide IsWordChar, IsSpace;
    if IsModeTag(line) {
      var tagLine := TrimStart(line);
      assert tagLine == "@mode" + tagLine[5..];
      assert Behind(line, before, "@mode", tagLine[5..]);
    }
    if gap, rest :| Behind(line, gap, "@mode", rest) && (rest == "" || !IsWordChar(rest[0])) {
      MarkBehind(line, gap, "@mode", rest);
    }
  }

  function ModeName(m: Mode): string {
    match m
    case Emit => "emit"
    case Waterfall => "waterfall"
    case Parallel => "parallel"
    case Serial => "serial"
    case Bail => "bail"
  }

  /** White space and the name of the mode, and nothing else. */
  ghost predicate NamesMode(rest: string, m: Mode) {
    exists space, trail :: space != "" && Blank(space) && Blank(trail) && rest == space + ModeName(m) + trail
  }

  lemma {:induction false} NameRead(m: Mode)
    ensures NamedMode(ModeName(m)) == Some(m)
    ensures forall s :: NamedMode(s) == Some(m) ==> s == ModeName(m)
    ensures var n := ModeName(m); n != "" && !IsSpace(n[0]) && !IsSpace(n[|n| - 1])
  {}

  /** A line sets a mode exactly when it is `@mode`, white space and the name of that mode. */
  lemma {:induction false} ModeMeans(line: string, m: Mode)
    ensures ModeOf(line) == Some(m) <==> exists gap, rest :: Behind(line, gap, "@mode", rest) && NamesMode(rest, m)
  {
    var before := StartSplit(line);
    NameRead(m);
    hide IsSpace, NamedMode, ModeName;
    if ModeOf(line) == Some(m) {
      var tagLine := TrimStart(line);
      assert tagLine == "@mode" + tagLine[5..];
      NamedBehind(tagLine[5..], m);
      assert Behind(line, before, "@mode", tagLine[5..]);
    }
    if gap, rest :| Behind(line, gap, "@mode", rest) && NamesMode(rest, m) {
      AtSign();
      MarkBehind(line, gap, "@mode", rest);
      NameBehind(rest, m);
    }
  }

  lemma AtSign()
    ensures !IsSpace("@mode"[0])
  {}

  lemma {:induction false} NamedBehind(rest: string, m: Mode)
    requires rest != "" && IsSpace(rest[0]) && NamedMode(TrimEnd(TrimStart(rest))) == Some(m)
    ensures NamesMode(rest, m)
  {
    NameRead(m);
    hide NamedMode, ModeName;
    var space := StartSplit(rest);
    var trail := EndSplit(TrimStart(rest));
    hide IsSpace;
    assert rest == space + ModeName(m) + trail;
  }

  lemma {:induction false} NameBehind(rest: string, m: Mode)
    requires NamesMode(rest, m)
    ensures rest != "" && IsSpace(rest[0]) && TrimEnd(TrimStart(rest)) == ModeName(m)
  {
    NameRead(m);
    hide NamedMode, ModeName, IsSpace;
    var space, trail :| space != "" && Blank(space) && Blank(trail) && rest == space + ModeName(m) + trail;
    assert rest == space + (ModeName(m) + trail);
    StartTrimmed(space, ModeName(m) + trail);
    EndTrimmed(ModeName(m), trail);
  }

  /** `/^@mode\b/` */
  predicate IsModeTag(line: string) {
    var tagLine := TrimStart(line);
    StartsWith(tagLine, "@mode") && (|tagLine| == 5 || !IsWordChar(tagLine[5]))
  }

  /** `/^@mode\s+(emit|waterfall|parallel|serial|bail)\s*$/` */
  function ModeOf(line: string): Option<Mode> {
    var tagLine := TrimStart(line);
    if StartsWith(tagLine, "@mode") && |tagLine| > 5 && IsSpace(tagLine[5])
    then NamedMode(TrimEnd(TrimStart(tagLine[5..])))
    else None
  }

  function NamedMode(name: string): Option<Mode> {
    if name == "emit" then Some(Emit)
    else if name == "waterfall" then Some(Waterfall)
    else if name == "parallel" then Some(Parallel)
    else if name == "serial" then Some(Serial)
    else if name == "bail" then Some(Bail)
    else None
  }

  /** The lines before the first block tag. */
  function Prose(lines: seq<string>): (r: seq<string>)
    ensures |r| <= |lines| && r == lines[..|r|] && (|r| < |lines| ==> IsTag(lines[|r|]))
    ensures forall line :: line in r ==> !IsTag(line)
  {
    if lines == [] || IsTag(lines[0]) then [] else [lines[0]] + Prose(lines[1..])
  }

  /** The last valid mode among the lines. */
  function LastMode(lines: seq<string>): Option<Mode> {
    if lines == [] then None
    else if ModeOf(lines[|lines| - 1]).Some? then ModeOf(lines[|lines| - 1])
    else LastMode(lines[..|lines| - 1])
  }

  ghost predicate NoModeFrom(lines: seq<string>, i: nat) {
    forall j :: i <= j < |lines| ==> ModeOf(lines[j]).None?
  }

  lemma {:induction false} LastModeMeans(lines: seq<string>)
    ensures LastMode(lines).None? ==> NoModeFrom(lines, 0)
    ensures LastMode(lines).Some? ==>
      exists i: nat :: i < |lines| && ModeOf(lines[i]) == LastMode(lines) && NoModeFrom(lines, i + 1)
  {
    hide ModeOf;
    if lines != [] {
      var last := |lines| - 1;
      if ModeOf(lines[last]).Some? {
        assert NoModeFrom(lines, last + 1);
      } else {
        LastModeMeans(lines[..last]);
        var before := lines[..last];
        if i: nat :| i < last && ModeOf(before[i]) == LastMode(before) && NoModeFrom(before, i + 1) {
          ModeFreeGrows(lines, i + 1);
          assert ModeOf(lines[i]) == LastMode(lines);
        }
        if LastMode(lines[..last]).None? { ModeFreeGrows(lines, 0); }
      }
    }
  }

  lemma {:induction false} ModeFreeGrows(lines: seq<string>, i: nat)
    requires lines != [] && ModeOf(lines[|lines| - 1]).None? && NoModeFrom(lines[..|lines| - 1], i)
    ensures NoModeFrom(lines, i)
  {
    hide ModeOf;
    forall j | i <= j < |lines| ensures ModeOf(lines[j]).None? {
      if j < |lines| - 1 { assert lines[j] == lines[..|lines| - 1][j]; }
    }
  }

  predicate IsBullet(line: string) {
    |line| >= 2 && line[0] == '-' && IsSpace(line[1])
  }

  /** A bullet is a dash and white space at the very start. */
  lemma {:induction false} BulletMeans(line: string)
    ensures IsBullet(line) <==> exists c, rest :: IsSpace(c) && line == "-" + ([c] + rest)
  {
    if IsBullet(line) { assert line == "-" + ([line[1]] + line[2..]); }
  }

  predicate IsPlain(line: string) {
    !Blank(line) && !IsBullet(line)
  }

  // ----- collapsing white space

  /** `s.replace(/\s+/g, ' ')` */
  function Singled(s: string): string {
    if s == "" then ""
    else if !IsSpace(s[0]) then [s[0]] + Singled(s[1..])
    else if |s| > 1 && IsSpace(s[1]) then Singled(s[1..])
    else " " + Singled(s[1..])
  }

  /** `parts.join(' ').replace(/\s+/g, ' ').trim()` */
  function Collapse(parts: seq<string>): string {
    TrimEnd(TrimStart(Singled(Join(parts, " "))))
  }

  function Tail(s: string): string {
    if s != "" && IsSpace(s[|s| - 1]) then " " else ""
  }

  lemma {:induction false} SingledWord(s: string)
    ensures Singled(s) == s[..WordLength(s)] + Singled(s[WordLength(s)..])
  {
    if s != "" && !IsSpace(s[0]) {
      SingledWord(s[1..]);
      assert s[..WordLength(s)] == [s[0]] + s[1..][..WordLength(s[1..])];
      assert s[WordLength(s)..] == s[1..][WordLength(s[1..])..];
    }
  }

  lemma {:induction false} SingledGap(s: string)
    requires s != "" && IsSpace(s[0])
    ensures Singled(s) == " " + Singled(TrimStart(s))
    ensures Words(s) == Words(TrimStart(s))
    ensures TrimStart(s) == "" ==> Tail(s) == " "
    ensures TrimStart(s) != "" ==> Tail(TrimStart(s)) == Tail(s)
  {
    if |s| > 1 && IsSpace(s[1]) { SingledGap(s[1..]); }
  }

  lemma {:induction false} TrimStartLength(s: string)
    ensures |TrimStart(s)| <= |s|
    ensures TrimStart(s) == "" || !IsSpace(TrimStart(s)[0])
  {
    if s != "" && IsSpace(s[0]) { TrimStartLength(s[1..]); }
  }

  /** A word has no white space in it, and is not empty. */
  predicate Solid(w: string) {
    w != "" && forall i :: 0 <= i < |w| ==> !IsSpace(w[i])
  }

  lemma {:induction false} WordsAreSolid(s: string)
    ensures forall w :: w in Words(s) ==> Solid(w)
  {
    hide IsSpace;
    if s != "" {
      if IsSpace(s[0]) { WordsAreSolid(s[1..]); } else { WordsAreSolid(s[WordLength(s)..]); }
    }
  }

  lemma {:induction false} SingledIsWords(s: string)
    requires s == "" || !IsSpace(s[0])
    ensures Singled(s) == Join(Words(s), " ") + Tail(s)
    decreases |s|
  {
    hide IsSpace, Join, Tail, Singled;
    if s == "" {
      NoWords();
    } else {
      var n := WordLength(s);
      var w, rest := s[..n], s[n..];
      SingledWord(s);
      if rest == "" {
        OneWord(w);
        assert s == w && Words(rest) == [];
        assert Words(s) == [w];
      } else {
        SingledGap(rest);
        TrimStartLength(rest);
        var r := TrimStart(rest);
        SingledIsWords(r);
        GluedWords(s, w, rest, r);
      }
    }
  }

  lemma NoWords()
    ensures Singled("") == Join(Words(""), " ") + Tail("")
  {}

  lemma OneWord(w: string)
    requires Solid(w)
    ensures Join([w], " ") + Tail(w) == w + Singled("")
  {}

  lemma {:induction false} GluedWords(s: string, w: string, rest: string, r: string)
    requires s == w + rest && rest != "" && Words(s) == [w] + Words(rest) && Words(rest) == Words(r)
    requires Singled(s) == w + (" " + Singled(r)) && Singled(r) == Join(Words(r), " ") + Tail(r)
    requires r == "" ==> Tail(rest) == " "
    requires r != "" ==> Tail(rest) == Tail(r) && !IsSpace(r[0])
    ensures Singled(s) == Join(Words(s), " ") + Tail(s)
  {
    hide Singled, IsSpace;
    TailOfRest(w, rest);
    if r != "" {
      hide Tail;
      assert Words(r) != [];
      assert Words(s)[1..] == Words(r);
      hide Words, Join;
      SpacedOut(w, Join(Words(r), " "), Tail(r));
    }
  }

  lemma TailOfRest(w: string, rest: string)
    requires rest != ""
    ensures Tail(w + rest) == Tail(rest)
  {}

  lemma SpacedOut(w: string, s: string, tail: string)
    ensures w + (" " + (s + tail)) == w + " " + s + tail
  {}

  lemma {:induction false} JoinEndsSolid(ws: seq<string>)
    requires ws != [] && forall w :: w in ws ==> Solid(w)
    ensures var s := Join(ws, " "); s != "" && !IsSpace(s[0]) && !IsSpace(s[|s| - 1])
  {
    hide IsSpace;
    if |ws| > 1 { JoinEndsSolid(ws[1..]); }
    assert ws[0] in ws;
  }

  lemma TrimSolid(s: string, tail: string)
    requires s != "" ==> !IsSpace(s[|s| - 1])
    requires tail == "" || tail == " "
    ensures TrimEnd(s + tail) == s
  {
    if tail == " " {
      assert (s + tail)[..|s + tail| - 1] == s;
    } else {
      assert s + tail == s;
    }
  }

  /** Collapsed text is its words with single spaces between them. */
  lemma {:induction false} CollapseIsWords(parts: seq<string>)
    ensures Collapse(parts) == Join(AllWords(parts), " ")
  {
    var s := Join(parts, " ");
    WordsJoin(parts, " ");
    TrimStartLength(s);
    var r := TrimStart(s);
    if s != "" && IsSpace(s[0]) {
      SingledGap(s);
    }
    hide IsSpace;
    SingledIsWords(r);
    WordsAreSolid(r);
    if Words(r) != [] { JoinEndsSolid(Words(r)); }
    TrimSolid(Join(Words(r), " "), Tail(r));
    SingledStart(s);
  }

  lemma {:induction false} SingledStart(s: string)
    ensures TrimStart(Singled(s)) == Singled(TrimStart(s))
    ensures Words(TrimStart(s)) == Words(s)
  {
    TrimStartLength(s);
    if s != "" && IsSpace(s[0]) {
      SingledGap(s);
      assert (" " + Singled(TrimStart(s)))[1..] == Singled(TrimStart(s));
    }
  }

  lemma {:induction false} WordsOfWords(ws: seq<string>)
    requires forall w :: w in ws ==> Solid(w)
    ensures AllWords(ws) == ws
  {
    if ws != [] {
      WordsOfWords(ws[1..]);
      SolidWords(ws[0]);
    }
  }

  lemma SolidWords(w: string)
    requires Solid(w)
    ensures Words(w) == [w]
  {
    assert WordLength(w) == |w|;
    assert w[..|w|] == w && w[|w|..] == "";
  }

  lemma {:induction false} AllWordsAreSolid(parts: seq<string>)
    ensures forall w :: w in AllWords(parts) ==> Solid(w)
  {
    hide Solid;
    if parts != [] {
      WordsAreSolid(parts[0]);
      AllWordsAreSolid(parts[1..]);
    }
  }

  lemma {:induction false} CollapseWords(parts: seq<string>)
    ensures Words(Collapse(parts)) == AllWords(parts)
  {
    CollapseIsWords(parts);
    AllWordsAreSolid(parts);
    WordsJoin(AllWords(parts), " ");
    WordsOfWords(AllWords(parts));
  }

  // ----- the grammar of blocks

  /** The number of leading lines that are plain text. */
  function PlainRun(lines: seq<string>): (n: nat)
    ensures n <= |lines|
    ensures forall i :: 0 <= i < n ==> IsPlain(lines[i])
    ensures n < |lines| ==> !IsPlain(lines[n])
  {
    if lines == [] || !IsPlain(lines[0]) then 0 else 1 + PlainRun(lines[1..])
  }

  /** The number of leading lines that are not blank. */
  function SolidRun(lines: seq<string>): (n: nat)
    ensures n <= |lines|
    ensures forall i :: 0 <= i < n ==> !Blank(lines[i])
    ensures n < |lines| ==> Blank(lines[n])
  {
    if lines == [] || Blank(lines[0]) then 0 else 1 + SolidRun(lines[1..])
  }

  /** The items of one list: each bullet takes the plain lines below it. */
  function Items(run: seq<string>): seq<string> {
    if run == [] then []
    else
      var n := 1 + PlainRun(run[1..]);
      [Collapse(run[..n])] + Items(run[n..])
  }

  /**
   * The blocks of the prose: a paragraph is a run of plain lines, a list runs from a
   * bullet to the next blank line.
   */
  function Blocks(lines: seq<string>): seq<string>
    decreases |lines|
  {
    if lines == [] then []
    else if Blank(lines[0]) then Blocks(lines[1..])
    else if IsBullet(lines[0]) then
      var n := SolidRun(lines);
      [Join(Items(lines[..n]), "\n")] + Blocks(lines[n..])
    else
      var n := PlainRun(lines);
      [Collapse(lines[..n])] + Blocks(lines[n..])
  }

  lemma {:induction false} ItemsWords(run: seq<string>)
    ensures AllWords(Items(run)) == AllWords(run)
    decreases |run|
  {
    hide *;
    ItemsNone(run);
    if run == [] {
      assert Items(run) == run;
    } else {
      var n := 1 + PlainRun(run[1..]);
      FirstItem(run);
      ItemsWords(run[n..]);
      CollapseWords(run[..n]);
      ConsWords(Collapse(run[..n]), Items(run[n..]));
      CutWords(run, n);
    }
  }

  lemma {:induction false} CutWords(lines: seq<string>, n: nat)
    requires n <= |lines|
    ensures AllWords(lines) == AllWords(lines[..n]) + AllWords(lines[n..])
  {
    hide *;
    AllWordsAppend(lines[..n], lines[n..]);
    assert lines == lines[..n] + lines[n..];
  }

  /** Prose is conserved: the blocks hold the words of the lines, in order, and no others. */
  lemma {:induction false} BlocksWords(lines: seq<string>)
    ensures AllWords(Blocks(lines)) == AllWords(lines)
    decreases |lines|
  {
    hide *;
    if lines == [] {
      NoBlocks();
    } else if Blank(lines[0]) {
      BlocksWords(lines[1..]);
      SkipBlank(lines);
      BlankWords(lines[0]);
      ConsWords(lines[0], lines[1..]);
      assert lines == [lines[0]] + lines[1..] && [] + AllWords(lines[1..]) == AllWords(lines[1..]);
    } else {
      var n := RunLength(lines);
      FirstBlock(lines);
      BlocksWords(lines[n..]);
      BlockWords(lines[..n]);
      CutWords(lines, n);
      ConsWords(Blocks(lines)[0], Blocks(lines[n..]));
    }
  }

  lemma ConsWords(first: string, rest: seq<string>)
    ensures AllWords([first] + rest) == Words(first) + AllWords(rest)
  {
    assert ([first] + rest)[1..] == rest;
  }

  /** The number of lines that the first block takes. */
  function RunLength(lines: seq<string>): (n: nat)
    requires lines != []
    ensures n <= |lines|
  {
    if IsBullet(lines[0]) then SolidRun(lines) else PlainRun(lines)
  }

  lemma {:induction false} FirstBlock(lines: seq<string>)
    requires lines != [] && !Blank(lines[0])
    ensures var n := RunLength(lines);
            && n > 0
            && Blocks(lines) == [if IsBullet(lines[0]) then Join(Items(lines[..n]), "\n") else Collapse(lines[..n])]
              + Blocks(lines[n..])
  {}

  lemma {:induction false} BlankWords(line: string)
    requires Blank(line)
    ensures Words(line) == []
  {
    WordsSkip(line, "");
    assert line + "" == line;
  }

  lemma {:induction false} BlockWords(run: seq<string>)
    ensures Words(Join(Items(run), "\n")) == AllWords(run)
    ensures Words(Collapse(run)) == AllWords(run)
  {
    WordsJoin(Items(run), "\n");
    ItemsWords(run);
    CollapseWords(run);
  }

  /** The words of the documentation text are the words of the prose lines. */
  lemma {:induction false} ProseConserved(raw: string)
    ensures Words(Join(Blocks(Prose(InnerLines(raw))), "\n\n")) == AllWords(Prose(InnerLines(raw)))
  {
    WordsJoin(Blocks(Prose(InnerLines(raw))), "\n\n");
    BlocksWords(Prose(InnerLines(raw)));
  }

  // ----- where blocks may be cut

  lemma {:induction false} PlainRunAppend(a: seq<string>, b: seq<string>)
    requires b == [] || !IsPlain(b[0])
    ensures PlainRun(a + b) == PlainRun(a)
  {
    hide IsPlain;
    if a == [] {
      assert a + b == b;
    } else {
      PlainRunAppend(a[1..], b);
      SliceAppend(a, b, 1);
    }
  }

  lemma {:induction false} SolidRunAppend(a: seq<string>, b: seq<string>)
    requires b == [] || Blank(b[0])
    ensures SolidRun(a + b) == SolidRun(a)
  {
    hide Blank;
    if a == [] {
      assert a + b == b;
    } else {
      SolidRunAppend(a[1..], b);
      SliceAppend(a, b, 1);
    }
  }

  /** A blank line closes whatever is open, so the text on its two sides is apart. */
  lemma {:induction false} CutAtBlank(a: seq<string>, b: seq<string>)
    requires b == [] || Blank(b[0])
    ensures Blocks(a + b) == Blocks(a) + Blocks(b)
    decreases |a|
  {
    hide *;
    if a == [] {
      assert a + b == b;
      NoBlocks();
    } else if Blank(a[0]) {
      CutAtBlank(a[1..], b);
      SliceAppend(a, b, 1);
      SkipBlank(a);
      SkipBlank(a + b);
    } else {
      FirstBlock(a);
      CutAtBlank(a[RunLength(a)..], b);
      FirstBlockStays(a, b);
      assert [Blocks(a)[0]] + (Blocks(a[RunLength(a)..]) + Blocks(b)) == Blocks(a) + Blocks(b);
    }
  }

  /** Lines behind a blank one do not change the first block. */
  lemma {:induction false} FirstBlockStays(a: seq<string>, b: seq<string>)
    requires a != [] && !Blank(a[0]) && (b == [] || Blank(b[0]))
    ensures Blocks(a) != [] && Blocks(a + b) == [Blocks(a)[0]] + Blocks(a[RunLength(a)..] + b)
  {
    hide Blank, Blocks, Collapse, Items, Join, SolidRun, PlainRun, IsBullet;
    SolidRunAppend(a, b);
    PlainRunAppend(a, b);
    FirstBlock(a);
    FirstBlock(a + b);
    SliceAppend(a, b, RunLength(a));
  }

  lemma NoBlocks()
    ensures Blocks([]) == []
  {}

  lemma {:induction false} SkipBlank(lines: seq<string>)
    requires lines != [] && Blank(lines[0])
    ensures Blocks(lines) == Blocks(lines[1..])
  {}

  ghost predicate AllPlain(lines: seq<string>) {
    forall l :: l in lines ==> IsPlain(l)
  }

  /** A paragraph ends at a blank line, at a bullet, and at the end of the prose. */
  lemma {:induction false} ParagraphBlock(para: seq<string>, rest: seq<string>)
    requires para != [] && AllPlain(para) && (rest == [] || !IsPlain(rest[0]))
    ensures Blocks(para + rest) == [Collapse(para)] + Blocks(rest)
  {
    hide Blocks, Collapse, Items, Join, IsBullet, Blank;
    assert para[0] in para;
    PlainRunAppend(para, rest);
    WholePlain(para);
    FirstBlock(para + rest);
    assert (para + rest)[..|para|] == para && (para + rest)[|para|..] == rest;
  }

  lemma {:induction false} WholePlain(lines: seq<string>)
    requires AllPlain(lines)
    ensures PlainRun(lines) == |lines|
  {
    hide IsPlain;
    if lines != [] {
      assert lines[0] in lines;
      WholePlain(lines[1..]);
    }
  }

  lemma {:induction false} WholeSolid(lines: seq<string>)
    requires forall l :: l in lines ==> !Blank(l)
    ensures SolidRun(lines) == |lines|
  {
    hide Blank;
    if lines != [] {
      assert lines[0] in lines;
      WholeSolid(lines[1..]);
    }
  }

  /** The lines of an open list: a bullet first, and none of them blank. */
  ghost predicate ListLines(lines: seq<string>) {
    (lines == [] || IsBullet(lines[0])) && forall l :: l in lines ==> !Blank(l)
  }

  lemma {:induction false} ListBlock(run: seq<string>)
    requires run != [] && ListLines(run)
    ensures Blocks(run) == [Join(Items(run), "\n")]
  {
    hide Collapse, Items, Join, IsBullet, Blank;
    assert run[0] in run;
    WholeSolid(run);
    FirstBlock(run);
    assert run[..|run|] == run && run[|run|..] == [];
  }

  /** The lines of one item: its bullet, then plain lines. */
  ghost predicate ItemLines(item: seq<string>) {
    item != [] && IsBullet(item[0]) && !Blank(item[0]) && AllPlain(item[1..])
  }

  lemma {:induction false} ItemsSnoc(run: seq<string>, item: seq<string>)
    requires ListLines(run) && ItemLines(item)
    ensures Items(run + item) == Items(run) + [Collapse(item)]
    decreases |run|
  {
    hide Collapse, IsBullet, Blank, Items, ListLines;
    if run == [] {
      ItemsNone(run);
      OneItem(item);
      assert run + item == item && [] + [Collapse(item)] == [Collapse(item)];
    } else {
      var n := 1 + PlainRun(run[1..]);
      PlainRunAppend(run[1..], item);
      SliceAppend(run, item, 1);
      SliceAppend(run, item, n);
      FirstItem(run);
      FirstItem(run + item);
      ListLinesRest(run);
      ItemsSnoc(run[n..], item);
    }
  }

  lemma {:induction false} FirstItem(run: seq<string>)
    requires run != []
    ensures var n := 1 + PlainRun(run[1..]); Items(run) == [Collapse(run[..n])] + Items(run[n..])
  {}

  lemma {:induction false} OneItem(item: seq<string>)
    requires ItemLines(item)
    ensures Items(item) == [Collapse(item)]
  {
    hide Collapse, IsBullet, Blank;
    FirstItem(item);
    WholePlain(item[1..]);
    assert item[..|item|] == item && item[|item|..] == [];
  }

  lemma {:induction false} ListLinesRest(run: seq<string>)
    requires run != [] && ListLines(run)
    ensures ListLines(run[1 + PlainRun(run[1..])..])
  {
    hide IsBullet, Blank;
    var n := 1 + PlainRun(run[1..]);
    assert n < |run| ==> run[n] in run && run[n] == run[1..][n - 1];
  }

  lemma {:induction false} ListLinesAppend(run: seq<string>, item: seq<string>)
    requires ListLines(run) && ItemLines(item)
    ensures ListLines(run + item)
  {
    hide IsBullet, Blank;
    assert forall l :: l in item ==> l == item[0] || l in item[1..];
  }

  // ----- the four buffers

  class ProseBuffers {
    var blocks: seq<string>
    var para: seq<string>
    var list: seq<string>
    var item: seq<string>
    /** The lines of the finished items of the open list. */
    ghost var done: seq<string>

    /** A paragraph is never open together with a list or an item. */
    ghost predicate Valid()
      reads this
    {
      && AllPlain(para)
      && (item == [] || ItemLines(item))
      && ListLines(done)
      && list == Items(done)
      && (para != [] ==> done == [] && list == [] && item == [])
    }

    /** The prose lines that are not in a block yet. */
    ghost function Pending(): seq<string>
      reads this
    {
      done + item + para
    }

    /** Between two lines, an open list has an open item. */
    ghost predicate Settled()
      reads this
    {
      item == [] ==> done == []
    }

    lemma OnlyPara()
      requires Valid() && para != []
      ensures Pending() == para && AllPlain(para)
    {}

    constructor ()
      ensures Valid() && Settled() && blocks == [] && Pending() == []
    {
      blocks, para, list, item, done := [], [], [], [], [];
      new;
      ItemsNone(done);
    }

    method FlushItem()
      requires Valid()
      modifies this
      ensures Valid() && item == [] && para == old(para) && blocks == old(blocks)
      ensures done == old(done + item)
    {
      hide Items, ListLines, ItemLines, AllPlain;
      if item != [] {
        ItemsSnoc(done, item);
        ListLinesAppend(done, item);
        list := list + [Collapse(item)];
        done := done + item;
      }
      assert item == [] ==> done + item == done;
      item := [];
    }

    method FlushList()
      requires Valid()
      modifies this
      ensures Valid() && item == [] && list == [] && done == [] && para == old(para)
      ensures blocks == old(blocks) + Blocks(old(done + item))
    {
      FlushItem();
      hide *;
      ListFlushed(done);
      if list != [] {
        blocks := blocks + [Join(list, "\n")];
      }
      assert list == [] ==> blocks + [] == blocks;
      list, done := [], [];
    }

    /** Everything pending becomes the blocks it reads as. */
    method FlushPara()
      requires Valid()
      modifies this
      ensures Valid() && Settled() && Pending() == []
      ensures blocks == old(blocks) + Blocks(old(Pending()))
    {
      hide Blocks, Items;
      NoBlocks();
      assert done + item + [] == done + item;
      assert para != [] ==> done + item + para == para;
      FlushList();
      if para != [] {
        ParagraphBlock(para, []);
        assert para + [] == para;
        blocks := blocks + [Collapse(para)];
      }
      para := [];
    }

    /** One prose line that is not blank. */
    method Take(line: string)
      requires Valid() && Settled() && !Blank(line)
      modifies this
      ensures Valid() && Settled()
      ensures if IsBullet(line) && old(para) != []
              then blocks == old(blocks) + Blocks(old(para)) && Pending() == [line]
              else blocks == old(blocks) && Pending() == old(Pending()) + [line]
    {
      hide Blocks, Items;
      if IsBullet(line) {
        FlushItem();
        NoBlocks();
        if para != [] {
          ParagraphBlock(para, []);
          assert para + [] == para;
          blocks := blocks + [Collapse(para)];
          para := [];
        }
        item := item + [line];
        assert item == [line] && AllPlain(item[1..]);
      } else if item != [] {
        ItemTakes(item, line);
        assert done + (item + [line]) + [] == done + item + [] + [line];
        item := item + [line];
      } else {
        ItemsNone(done);
        assert [] + [] + (para + [line]) == [] + [] + para + [line];
        para := para + [line];
      }
    }
  }

  lemma ItemTakes(item: seq<string>, line: string)
    requires ItemLines(item) && IsPlain(line)
    ensures ItemLines(item + [line])
  {
    hide IsPlain, Blank, IsBullet;
    assert (item + [line])[1..] == item[1..] + [line];
  }

  lemma {:induction false} ListFlushed(done: seq<string>)
    requires ListLines(done)
    ensures Items([]) == [] && ListLines([])
    ensures Blocks(done) == if Items(done) == [] then [] else [Join(Items(done), "\n")]
  {
    hide Blocks, Items;
    ItemsNone(done);
    ItemsNone([]);
    NoBlocks();
    if done != [] { ListBlock(done); }
  }

  lemma ItemsNone(run: seq<string>)
    ensures Items(run) == [] <==> run == []
  {}

  // ----- the parser

  /** The prose still to come at line `i`. */
  ghost function Rest(lines: seq<string>, i: nat, inTags: bool): seq<string>
    requires i <= |lines|
  {
    if inTags then [] else Prose(lines[i..])
  }

  lemma {:induction false} RestNext(lines: seq<string>, i: nat)
    requires i < |lines|
    ensures Rest(lines, i, false) == if IsTag(lines[i]) then [] else [lines[i]] + Rest(lines, i + 1, false)
  {
    hide IsTag;
    assert lines[i..][0] == lines[i] && lines[i..][1..] == lines[i + 1..];
  }

  /** The blocks so far, with what is pending put before what is to come, are the blocks of the prose. */
  ghost predicate Reads(blocks: seq<string>, pending: seq<string>, lines: seq<string>, i: nat, inTags: bool)
    requires i <= |lines|
  {
    && Blocks(Prose(lines)) == blocks + Blocks(pending + Rest(lines, i, inTags))
    && (inTags ==> pending == [])
  }

  lemma {:induction false} ReadStart(lines: seq<string>)
    ensures Reads([], [], lines, 0, false)
  {
    hide Blocks;
    assert lines[0..] == lines && [] + Prose(lines) == Prose(lines);
  }

  lemma {:induction false} ReadEnd(blocks: seq<string>, pending: seq<string>, lines: seq<string>, inTags: bool)
    requires Reads(blocks, pending, lines, |lines|, inTags)
    ensures Blocks(Prose(lines)) == blocks + Blocks(pending)
  {
    hide Blocks;
    assert lines[|lines|..] == [] && pending + [] == pending;
  }

  /** Flushing at a tag ends the prose. */
  lemma {:induction false} ReadTag(blocks: seq<string>, pending: seq<string>, lines: seq<string>, i: nat, inTags: bool)
    requires i < |lines| && IsTag(lines[i]) && Reads(blocks, pending, lines, i, inTags)
    ensures Reads(blocks + Blocks(pending), [], lines, i + 1, true)
  {
    hide Blocks, IsTag, Prose;
    RestNext(lines, i);
    NoBlocks();
    assert pending + [] == pending && [] + Rest(lines, i + 1, true) == [];
    assert blocks + Blocks(pending) + [] == blocks + Blocks(pending);
  }

  lemma {:induction false} ReadPast(blocks: seq<string>, pending: seq<string>, lines: seq<string>, i: nat)
    requires i < |lines| && Reads(blocks, pending, lines, i, true)
    ensures Reads(blocks, pending, lines, i + 1, true)
  {}

  /** Flushing at a blank line changes no block. */
  lemma {:induction false} ReadBlank(blocks: seq<string>, pending: seq<string>, lines: seq<string>, i: nat)
    requires i < |lines| && !IsTag(lines[i]) && Blank(lines[i]) && Reads(blocks, pending, lines, i, false)
    ensures Reads(blocks + Blocks(pending), [], lines, i + 1, false)
  {
    hide Blocks, IsTag, Blank, Prose;
    RestNext(lines, i);
    var rest := Rest(lines, i, false);
    CutAtBlank(pending, rest);
    SkipBlank(rest);
    assert [] + rest[1..] == rest[1..];
  }

  lemma {:induction false} ReadLine(blocks: seq<string>, pending: seq<string>, lines: seq<string>, i: nat)
    requires i < |lines| && !IsTag(lines[i]) && Reads(blocks, pending, lines, i, false)
    ensures Reads(blocks, pending + [lines[i]], lines, i + 1, false)
  {
    hide Blocks, IsTag, Prose;
    RestNext(lines, i);
    var rest := Rest(lines, i + 1, false);
    assert pending + ([lines[i]] + rest) == pending + [lines[i]] + rest;
  }

  /** A bullet right under a paragraph closes the paragraph. */
  lemma {:induction false} ReadBullet(blocks: seq<string>, pending: seq<string>, lines: seq<string>, i: nat)
    requires i < |lines| && !IsTag(lines[i]) && Reads(blocks, pending, lines, i, false)
    requires pending != [] && AllPlain(pending) && IsBullet(lines[i])
    ensures Reads(blocks + Blocks(pending), [lines[i]], lines, i + 1, false)
  {
    hide Blocks, IsTag, Prose, IsBullet, Blank;
    RestNext(lines, i);
    ParagraphBlock(pending, Rest(lines, i, false));
    ParagraphBlock(pending, []);
    NoBlocks();
    assert pending + [] == pending;
  }

  /** What the first `i` lines say about the mode. */
  ghost predicate ModesSeen(lines: seq<string>, i: nat, mode: Option<Mode>, hasMode: bool)
    requires i <= |lines|
  {
    mode == LastMode(lines[..i]) && (hasMode <==> HasModeTag(lines[..i]))
  }

  lemma {:induction false} ModesNext(lines: seq<string>, i: nat, mode: Option<Mode>, hasMode: bool)
    requires i < |lines| && ModesSeen(lines, i, mode, hasMode)
    ensures var line := lines[i];
            ModesSeen(lines, i + 1, if ModeOf(line).Some? then ModeOf(line) else mode, hasMode || IsModeTag(line))
  {
    hide ModeOf, IsModeTag;
    assert lines[..i + 1] == lines[..i] + [lines[i]];
  }

  lemma ModesEnd(lines: seq<string>, mode: Option<Mode>, hasMode: bool)
    requires ModesSeen(lines, |lines|, mode, hasMode)
    ensures mode == LastMode(lines) && (hasMode <==> HasModeTag(lines))
  {
    assert lines[..|lines|] == lines;
  }

  ghost predicate HasModeTag(lines: seq<string>) {
    exists line :: line in lines && IsModeTag(line)
  }

  /** `parseJsDoc`, up to the rewriting of links. */
  method ParseJsDoc(raw: string) returns (doc: string, mode: Option<Mode>, hasMode: bool)
    ensures doc == Join(Blocks(Prose(InnerLines(raw))), "\n\n")
    ensures mode == LastMode(InnerLines(raw))
    ensures hasMode <==> HasModeTag(InnerLines(raw))
  {
    var inner := InnerLines(raw);
    mode, hasMode := None, false;
    var inTags := false;
    var buffers := new ProseBuffers();
    ReadStart(inner);
    NoModes(inner);
    hide *;
    for i := 0 to |inner|
      invariant buffers.Valid() && buffers.Settled()
      invariant Reads(buffers.blocks, buffers.Pending(), inner, i, inTags)
      invariant ModesSeen(inner, i, mode, hasMode)
    {
      var line := inner[i];
      ModesNext(inner, i, mode, hasMode);
      if ModeOf(line).Some? { mode := ModeOf(line); }
      if IsModeTag(line) { hasMode := true; }
      if IsTag(line) {
        ReadTag(buffers.blocks, buffers.Pending(), inner, i, inTags);
        buffers.FlushPara();
        inTags := true;
      } else if inTags {
        ReadPast(buffers.blocks, buffers.Pending(), inner, i);
      } else if Blank(line) {
        ReadBlank(buffers.blocks, buffers.Pending(), inner, i);
        buffers.FlushPara();
      } else {
        ReadLine(buffers.blocks, buffers.Pending(), inner, i);
        if IsBullet(line) && buffers.para != [] {
          buffers.OnlyPara();
          ReadBullet(buffers.blocks, buffers.para, inner, i);
        }
        buffers.Take(line);
      }
    }
    ModesEnd(inner, mode, hasMode);
    ReadEnd(buffers.blocks, buffers.Pending(), inner, inTags);
    buffers.FlushPara();
    doc := Join(buffers.blocks, "\n\n");
  }

  lemma NoModes(lines: seq<string>)
    ensures ModesSeen(lines, 0, None, false)
  {}
}
