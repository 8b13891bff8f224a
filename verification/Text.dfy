/** The string operations of ECMAScript that several scripts rely on. */
module Text {

  /** The characters that `\s` matches and `trim` removes. */
  predicate IsSpace(c: char) {
    c in {' ', '\t', '\n', '\U{B}', '\U{C}', '\r', '\U{A0}', '\U{1680}',
          '\U{2028}', '\U{2029}', '\U{202F}', '\U{205F}', '\U{3000}', '\U{FEFF}'}
    || '\U{2000}' <= c <= '\U{200A}'
  }

  /** By their code points: controls, the spaces of Unicode, its two separators and the byte order mark. */
  lemma SpaceCodes(c: char)
    ensures IsSpace(c) <==> var n := c as int;
      || 9 <= n <= 13 || n == 32 || n == 160 || n == 0x1680 || 0x2000 <= n <= 0x200A
      || n == 0x2028 || n == 0x2029 || n == 0x202F || n == 0x205F || n == 0x3000 || n == 0xFEFF
  {}

  predicate StartsWith(s: string, p: string) {
    |p| <= |s| && s[..|p|] == p
  }

  predicate EndsWith(s: string, p: string) {
    |p| <= |s| && s[|s| - |p|..] == p
  }

  lemma SliceAppend<T>(a: seq<T>, b: seq<T>, n: nat)
    requires n <= |a|
    ensures (a + b)[..n] == a[..n] && (a + b)[n..] == a[n..] + b
  {}

  // ----- splitting at a single character, and joining back

  /** `s.split(c)` */
  function SplitChar(s: string, c: char): (parts: seq<string>)
    ensures parts != []
    ensures forall p :: p in parts ==> c !in p
  {
    if s == "" then [""]
    else
      var rest := SplitChar(s[1..], c);
      if s[0] == c then [""] + rest else LengthenFirst(s[0], rest)
  }

  function LengthenFirst(x: char, parts: seq<string>): seq<string>
    requires parts != []
  {
    [[x] + parts[0]] + parts[1..]
  }

  /** `parts.join(sep)` */
  function Join(parts: seq<string>, sep: string): string {
    if parts == [] then ""
    else if |parts| == 1 then parts[0]
    else parts[0] + sep + Join(parts[1..], sep)
  }

  lemma JoinCons(x: string, parts: seq<string>, r: string)
    requires parts != []
    ensures Join([x] + parts, r) == x + r + Join(parts, r)
  {
    assert ([x] + parts)[1..] == parts;
  }

  /** Splitting undoes joining when no part holds the separator. */
  lemma {:induction false} SplitJoin(parts: seq<string>, c: char)
    requires parts != [] && forall p :: p in parts ==> c !in p
    ensures SplitChar(Join(parts, [c]), c) == parts
  {
    if |parts| == 1 {
      SplitPlain(parts[0], c);
    } else {
      SplitJoin(parts[1..], c);
      assert parts[0] + [c] + Join(parts[1..], [c]) == parts[0] + ([c] + Join(parts[1..], [c]));
      SplitAppend(parts[0], Join(parts[1..], [c]), c);
      SplitPlain(parts[0], c);
    }
  }

  lemma {:induction false} SplitPlain(s: string, c: char)
    requires c !in s
    ensures SplitChar(s, c) == [s]
  {
    if s != "" {
      assert s[0] in s && s == [s[0]] + s[1..];
      SplitPlain(s[1..], c);
    }
  }

  lemma {:induction false} SplitAppend(a: string, b: string, c: char)
    ensures SplitChar(a + [c] + b, c) == SplitChar(a, c) + SplitChar(b, c)
  {
    if a == "" {
      assert a + [c] + b == [c] + b;
    } else {
      SplitAppend(a[1..], b, c);
      assert (a + [c] + b)[0] == a[0] && (a + [c] + b)[1..] == a[1..] + [c] + b;
      LengthenAppend(a[0], SplitChar(a[1..], c), SplitChar(b, c));
      hide LengthenFirst;
      assert [""] + (SplitChar(a[1..], c) + SplitChar(b, c)) == ([""] + SplitChar(a[1..], c)) + SplitChar(b, c);
    }
  }

  lemma LengthenAppend(x: char, a: seq<string>, b: seq<string>)
    requires a != []
    ensures LengthenFirst(x, a + b) == LengthenFirst(x, a) + b
  {
    assert (a + b)[1..] == a[1..] + b;
  }

  function AppendLast(parts: seq<string>, t: string): (r: seq<string>)
    requires parts != []
    ensures |r| == |parts| && r == parts[..|parts| - 1] + [parts[|parts| - 1] + t]
  {
    if |parts| == 1 then [parts[0] + t] else [parts[0]] + AppendLast(parts[1..], t)
  }

  /** Text without the separator only lengthens the last part. */
  lemma {:induction false} SplitExtend(a: string, t: string, c: char)
    requires c !in t
    ensures SplitChar(a + t, c) == AppendLast(SplitChar(a, c), t)
  {
    if a == "" {
      assert a + t == t;
      SplitPlain(t, c);
    } else {
      SplitExtend(a[1..], t, c);
      assert (a + t)[0] == a[0] && (a + t)[1..] == a[1..] + t;
      ExtendCons(a[0], SplitChar(a[1..], c), t);
      hide AppendLast, LengthenFirst;
    }
  }

  lemma ExtendCons(x: char, r: seq<string>, t: string)
    requires r != []
    ensures AppendLast([""] + r, t) == [""] + AppendLast(r, t)
    ensures AppendLast(LengthenFirst(x, r), t) == LengthenFirst(x, AppendLast(r, t))
  {
    assert ([""] + r)[1..] == r;
    if |r| == 1 {
      assert [x] + (r[0] + t) == ([x] + r[0]) + t;
    } else {
      assert ([[x] + r[0]] + r[1..])[1..] == r[1..];
    }
  }

  lemma {:induction false} JoinSplit(s: string, c: char)
    ensures Join(SplitChar(s, c), [c]) == s
  {
    if s != "" {
      JoinSplit(s[1..], c);
    }
  }

  // ----- white space and words

  /** `s.trim() === ''` */
  predicate Blank(s: string) {
    forall i :: 0 <= i < |s| ==> IsSpace(s[i])
  }

  function TrimStart(s: string): string {
    if s != "" && IsSpace(s[0]) then TrimStart(s[1..]) else s
  }

  function TrimEnd(s: string): string {
    if s != "" && IsSpace(s[|s| - 1]) then TrimEnd(s[..|s| - 1]) else s
  }

  /** What goes at the start is white space, and what stays does not begin with any. */
  lemma {:induction false} StartTrimmed(gap: string, s: string)
    requires Blank(gap) && (s == "" || !IsSpace(s[0]))
    ensures TrimStart(gap + s) == s
  {
    if gap == "" {
      assert gap + s == s;
    } else {
      StartTrimmed(gap[1..], s);
      assert (gap + s)[1..] == gap[1..] + s;
    }
  }

  /** Every text is white space and what trimming leaves of it. */
  lemma {:induction false} StartSplit(s: string) returns (gap: string)
    ensures Blank(gap) && s == gap + TrimStart(s)
    ensures TrimStart(s) == "" || !IsSpace(TrimStart(s)[0])
  {
    gap := "";
    if s != "" && IsSpace(s[0]) {
      var rest := StartSplit(s[1..]);
      gap := [s[0]] + rest;
      assert s == [s[0]] + (rest + TrimStart(s[1..]));
    }
  }

  lemma {:induction false} EndSplit(s: string) returns (gap: string)
    ensures Blank(gap) && s == TrimEnd(s) + gap
    ensures TrimEnd(s) == "" || !IsSpace(TrimEnd(s)[|TrimEnd(s)| - 1])
  {
    gap := "";
    if s != "" && IsSpace(s[|s| - 1]) {
      var front := EndSplit(s[..|s| - 1]);
      gap := front + [s[|s| - 1]];
      assert s == TrimEnd(s[..|s| - 1]) + front + [s[|s| - 1]];
    }
  }

  /** What goes at the end is white space, and what stays does not end in any. */
  lemma {:induction false} EndTrimmed(s: string, gap: string)
    requires Blank(gap) && (s == "" || !IsSpace(s[|s| - 1]))
    ensures TrimEnd(s + gap) == s
  {
    if gap == "" {
      assert s + gap == s;
    } else {
      EndTrimmed(s, gap[..|gap| - 1]);
      assert (s + gap)[..|s + gap| - 1] == s + gap[..|gap| - 1];
    }
  }

  /** The length of the leading run of characters that are not white space. */
  function WordLength(s: string): (n: nat)
    ensures n <= |s|
    ensures forall i :: 0 <= i < n ==> !IsSpace(s[i])
    ensures n < |s| ==> IsSpace(s[n])
  {
    if s == "" || IsSpace(s[0]) then 0 else 1 + WordLength(s[1..])
  }

  /** The maximal runs of characters that are not white space, in order. */
  function Words(s: string): seq<string> {
    if s == "" then []
    else if IsSpace(s[0]) then Words(s[1..])
    else [s[..WordLength(s)]] + Words(s[WordLength(s)..])
  }

  lemma {:induction false} WordLengthAppend(a: string, b: string)
    requires b == "" || IsSpace(b[0])
    ensures WordLength(a + b) == WordLength(a)
  {
    if a != "" {
      WordLengthAppend(a[1..], b);
      assert (a + b)[1..] == a[1..] + b;
    } else {
      assert a + b == b;
    }
  }

  /** White space ends a word, so the words on its two sides are apart. */
  lemma {:induction false} WordsAppend(a: string, b: string)
    requires b == "" || IsSpace(b[0])
    ensures Words(a + b) == Words(a) + Words(b)
    decreases |a|
  {
    hide IsSpace;
    if a == "" {
      assert a + b == b;
    } else if IsSpace(a[0]) {
      WordsAppend(a[1..], b);
      SliceAppend(a, b, 1);
    } else {
      WordLengthAppend(a, b);
      var n := WordLength(a);
      WordsAppend(a[n..], b);
      SliceAppend(a, b, n);
    }
  }

  lemma {:induction false} WordsSkip(gap: string, s: string)
    requires Blank(gap)
    ensures Words(gap + s) == Words(s)
  {
    if gap == "" {
      assert gap + s == s;
    } else {
      WordsSkip(gap[1..], s);
      assert (gap + s)[1..] == gap[1..] + s;
    }
  }

  /** The words of several texts, one text after the other. */
  function AllWords(parts: seq<string>): seq<string> {
    if parts == [] then [] else Words(parts[0]) + AllWords(parts[1..])
  }

  lemma {:induction false} AllWordsAppend(a: seq<string>, b: seq<string>)
    ensures AllWords(a + b) == AllWords(a) + AllWords(b)
  {
    if a == [] {
      assert a + b == b;
    } else {
      AllWordsAppend(a[1..], b);
      SliceAppend(a, b, 1);
    }
  }

  /** Joining with white space neither makes nor loses a word. */
  lemma {:induction false} WordsJoin(parts: seq<string>, sep: string)
    requires sep != "" && Blank(sep)
    ensures Words(Join(parts, sep)) == AllWords(parts)
  {
    hide IsSpace;
    if |parts| == 1 {
      assert AllWords(parts[1..]) == [];
    } else if |parts| > 1 {
      var rest := Join(parts[1..], sep);
      WordsJoin(parts[1..], sep);
      WordsSkip(sep, rest);
      WordsAppend(parts[0], sep + rest);
      assert Join(parts, sep) == parts[0] + (sep + rest);
    }
  }
}
