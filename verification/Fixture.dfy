/**
 * The self-checking fixture canonicaliser (scripts/session-fixture-layout.ts), over an
 * arbitrary storage codec.
 */
module Fixture {
  import opened Wrappers
  import opened Text

  /** JSON and the session storage format: anything that reads, decodes, packs and prints. */
  datatype Codec<!R, !E> = Codec(
    parse: string -> Option<R>,
    isHeader: R -> bool,
    decode: R -> Option<seq<E>>,
    pack: seq<E> -> seq<R>,
    stringify: R -> string)

  datatype RecordLine = RecordLine(line: nat, text: string)

  datatype Failure = InvalidJson(line: nat) | InvalidRecord(line: nat) | ChangedStream | NotIdempotent

  // ----- lines

  predicate EndsInReturn(text: string) {
    text != "" && text[|text| - 1] == '\r'
  }

  function DropReturn(text: string): string {
    if EndsInReturn(text) then text[..|text| - 1] else text
  }

  /** Every piece but the last was closed by a line feed, and a return before it goes too. */
  function DropReturns(pieces: seq<string>): seq<string> {
    if |pieces| <= 1 then pieces else [DropReturn(pieces[0])] + DropReturns(pieces[1..])
  }

  /** `content.split(/\r?\n/)` */
  function Lines(content: string): seq<string> {
    DropReturns(SplitChar(content, '\n'))
  }

  /** The lines that are not blank, numbered from `first`. */
  function Numbered(texts: seq<string>, first: nat): (r: seq<RecordLine>)
    ensures forall x :: x in r ==> x.text in texts && !Blank(x.text)
  {
    if texts == [] then []
    else (if Blank(texts[0]) then [] else [RecordLine(first, texts[0])]) + Numbered(texts[1..], first + 1)
  }

  function RecordLines(content: string): seq<RecordLine> {
    Numbered(Lines(content), 1)
  }

  // ----- the canonical form

  function DecodeBody<R, E>(codec: Codec<R, E>, lines: seq<RecordLine>): Result<seq<E>, Failure> {
    if lines == [] then Ok([])
    else
      match codec.parse(lines[0].text)
      case None => Err(InvalidJson(lines[0].line))
      case Some(record) =>
        match codec.decode(record)
        case None => Err(InvalidRecord(lines[0].line))
        case Some(events) =>
          match DecodeBody(codec, lines[1..])
          case Err(e) => Err(e)
          case Ok(rest) => Ok(events + rest)
  }

  function Rows<R, E>(codec: Codec<R, E>, records: seq<R>): seq<string> {
    seq(|records|, i requires 0 <= i < |records| => codec.stringify(records[i]))
  }

  function RenderFixture<R, E>(codec: Codec<R, E>, header: string, events: seq<E>): string {
    Join([header] + Rows(codec, codec.pack(events)) + [""], "\n")
  }

  function Header(content: string): Option<string> {
    var lines := RecordLines(content);
    if lines == [] then None else Some(lines[0].text)
  }

  function Body<R, E>(codec: Codec<R, E>, content: string): Result<seq<E>, Failure>
    requires Header(content).Some?
  {
    DecodeBody(codec, RecordLines(content)[1..])
  }

  predicate IsSession<R, E>(codec: Codec<R, E>, content: string) {
    && Header(content).Some?
    && codec.parse(Header(content).value).Some?
    && codec.isHeader(codec.parse(Header(content).value).value)
  }

  /** `canonicalSessionFixture`, with both of its self-checks. */
  function Canonical<R, E(==)>(codec: Codec<R, E>, content: string): Result<Option<string>, Failure> {
    var lines := RecordLines(content);
    if lines == [] then Ok(None)
    else
      match codec.parse(lines[0].text)
      case None => Ok(None)
      case Some(value) =>
        if !codec.isHeader(value) then Ok(None)
        else
          match DecodeBody(codec, lines[1..])
          case Err(e) => Err(e)
          case Ok(events) =>
            var canonical := RenderFixture(codec, lines[0].text, events);
            var canonicalLines := RecordLines(canonical);
            match DecodeBody(codec, if canonicalLines == [] then [] else canonicalLines[1..])
            case Err(e) => Err(e)
            case Ok(decoded) =>
              if decoded != events then Err(ChangedStream)
              else if RenderFixture(codec, lines[0].text, decoded) != canonical then Err(NotIdempotent)
              else Ok(Some(canonical))
  }

  // ----- reading a rendered text back

  lemma {:induction false} DropReturnsKeepsFree(pieces: seq<string>, c: char)
    requires forall p :: p in pieces ==> c !in p
    ensures forall p :: p in DropReturns(pieces) ==> c !in p
  {
    if |pieces| > 1 {
      assert pieces[0] in pieces;
      assert c !in DropReturn(pieces[0]);
      DropReturnsKeepsFree(pieces[1..], c);
    }
  }

  lemma {:induction false} HeaderIsLine(content: string)
    requires Header(content).Some?
    ensures '\n' !in Header(content).value && !Blank(Header(content).value)
  {
    hide DropReturns, SplitChar, Numbered;
    DropReturnsKeepsFree(SplitChar(content, '\n'), '\n');
    assert RecordLines(content)[0] in RecordLines(content);
  }

  /** The lines of a text that begins with a given line. */
  lemma {:induction false} LinesAfter(header: string, rest: seq<string>)
    requires '\n' !in header && rest != []
    ensures Lines(Join([header] + rest, "\n")) == [DropReturn(header)] + Lines(Join(rest, "\n"))
  {
    hide DropReturn, SplitChar;
    assert ([header] + rest)[1..] == rest;
    assert Join([header] + rest, "\n") == header + "\n" + Join(rest, "\n");
    SplitAppend(header, Join(rest, "\n"), '\n');
    SplitPlain(header, '\n');
    DropReturnsCons(header, SplitChar(Join(rest, "\n"), '\n'));
  }

  lemma DropReturnsCons(piece: string, rest: seq<string>)
    requires rest != []
    ensures DropReturns([piece] + rest) == [DropReturn(piece)] + DropReturns(rest)
  {
    assert ([piece] + rest)[1..] == rest;
  }

  lemma NumberedCons(text: string, rest: seq<string>, first: nat)
    ensures Numbered([text] + rest, first)
      == (if Blank(text) then [] else [RecordLine(first, text)]) + Numbered(rest, first + 1)
  {
    assert ([text] + rest)[1..] == rest;
  }

  lemma StillNotBlank(text: string)
    requires !Blank(text)
    ensures !Blank(DropReturn(text))
  {
    var i :| 0 <= i < |text| && !IsSpace(text[i]);
    assert i < |DropReturn(text)| && DropReturn(text)[i] == text[i];
  }

  /** The first record of a rendered text is its header, less a return at its end. */
  lemma {:induction false} RenderedRecords<R, E>(codec: Codec<R, E>, header: string, events: seq<E>)
    requires '\n' !in header && !Blank(header)
    ensures var rest := Rows(codec, codec.pack(events)) + [""];
            RecordLines(RenderFixture(codec, header, events))
              == [RecordLine(1, DropReturn(header))] + Numbered(Lines(Join(rest, "\n")), 2)
  {
    hide Lines, Numbered, Blank, DropReturn, Join, Rows;
    var rest := Rows(codec, codec.pack(events)) + [""];
    assert [header] + Rows(codec, codec.pack(events)) + [""] == [header] + rest;
    LinesAfter(header, rest);
    StillNotBlank(header);
    NumberedCons(DropReturn(header), Lines(Join(rest, "\n")), 1);
  }

  // ----- what a returned text promises

  /** A returned text is the rendering of the input's events, and reads back to them. */
  lemma {:induction false} ReturnedText<R, E>(codec: Codec<R, E>, content: string, text: string)
    requires Canonical(codec, content) == Ok(Some(text))
    ensures IsSession(codec, content) && Body(codec, content).Ok?
    ensures text == RenderFixture(codec, Header(content).value, Body(codec, content).value)
    ensures Header(text) == Some(DropReturn(Header(content).value))
    ensures Body(codec, text) == Body(codec, content)
  {
    hide RecordLines, RenderFixture, DecodeBody, DropReturn, Numbered, Lines;
    HeaderIsLine(content);
    RenderedRecords(codec, Header(content).value, Body(codec, content).value);
  }

  /** Whoever answers with a text answers with the rendering of its own header and events. */
  lemma {:induction false} SecondPass<R, E>(codec: Codec<R, E>, text: string)
    ensures Canonical(codec, text) == Ok(Some(text)) ==>
              IsSession(codec, text) && Body(codec, text).Ok?
              && text == RenderFixture(codec, Header(text).value, Body(codec, text).value)
    ensures IsSession(codec, text) && Body(codec, text).Ok?
            && text == RenderFixture(codec, Header(text).value, Body(codec, text).value)
            ==> Canonical(codec, text) == Ok(Some(text))
  {
    hide RecordLines, RenderFixture, DecodeBody;
  }

  /**
   * The canonical form of any input, over any codec, holds the input's events and is its
   * own canonical form, exactly when the header line does not end in a carriage return.
   */
  lemma {:induction false} FixedPointIff<R, E>(codec: Codec<R, E>, content: string, text: string)
    requires Canonical(codec, content) == Ok(Some(text))
    ensures Header(text).Some? && Body(codec, text) == Body(codec, content)
    ensures Canonical(codec, text) == Ok(Some(text)) <==> !EndsInReturn(Header(content).value)
  {
    hide Canonical, RenderFixture, Body, Header, RecordLines;
    ReturnedText(codec, content, text);
    SecondPass(codec, text);
    var header, events := Header(content).value, Body(codec, content).value;
    if EndsInReturn(header) {
      RenderingsDiffer(codec, header, DropReturn(header), events);
    }
  }

  lemma {:induction false} RenderingsDiffer<R, E>(codec: Codec<R, E>, header: string, shorter: string, events: seq<E>)
    requires header == shorter + "\r"
    ensures RenderFixture(codec, header, events) != RenderFixture(codec, shorter, events)
  {
    var rest := Rows(codec, codec.pack(events)) + [""];
    RenderedFrom(codec, header, events);
    RenderedFrom(codec, shorter, events);
    var a, b := RenderFixture(codec, header, events), RenderFixture(codec, shorter, events);
    assert a[|shorter|] == '\r' && b[|shorter|] == '\n';
  }

  lemma {:induction false} RenderedFrom<R, E>(codec: Codec<R, E>, header: string, events: seq<E>)
    ensures RenderFixture(codec, header, events) == header + "\n" + Join(Rows(codec, codec.pack(events)) + [""], "\n")
  {
    var rest := Rows(codec, codec.pack(events)) + [""];
    assert [header] + Rows(codec, codec.pack(events)) + [""] == [header] + rest;
    assert ([header] + rest)[1..] == rest;
  }

  /** A header line closed by two returns is such an input. */
  lemma {:induction false} ReturnHeaderExample(codec: Codec<string, int>)
    requires codec.parse("h\r") == Some("h") && codec.isHeader("h") && codec.pack([]) == []
    ensures Canonical(codec, "h\r\r\n") == Ok(Some("h\r\n"))
    ensures Canonical(codec, "h\r\n") != Ok(Some("h\r\n"))
  {
    ExampleLines();
    HeaderOnly(codec, "h\r");
    assert "h\r" + "\n" == "h\r\n";
    hide RecordLines, RenderFixture, EndsInReturn;
    FixedPointIff(codec, "h\r\r\n", "h\r\n");
  }

  lemma ExampleLines()
    ensures RecordLines("h\r\r\n") == [RecordLine(1, "h\r")] && EndsInReturn("h\r")
    ensures RecordLines("h\r\n") == [RecordLine(1, "h")]
  {
    assert !IsSpace("h\r"[0]) && !IsSpace("h"[0]);
    assert DropReturn("h\r\r") == "h\r" && DropReturn("h\r") == "h";
    hide IsSpace;
    FirstLine("h\r\r");
    FirstLine("h\r");
    assert "h\r" + "\n" == "h\r\n" && "h\r\r" + "\n" == "h\r\r\n";
  }

  lemma {:induction false} HeaderOnly(codec: Codec<string, int>, header: string)
    requires codec.pack([]) == []
    ensures RenderFixture(codec, header, []) == header + "\n"
  {
    RenderedFrom(codec, header, []);
    assert Rows(codec, codec.pack([])) + [""] == [""];
    assert header + "\n" + "" == header + "\n";
  }

  lemma FirstLine(text: string)
    requires '\n' !in text && !Blank(DropReturn(text))
    ensures RecordLines(text + "\n") == [RecordLine(1, DropReturn(text))]
  {
    LinesAfter(text, [""]);
    assert [text] + [""] == [text, ""];
    assert text + "\n" + "" == text + "\n";
    assert Join([""], "\n") == "" && SplitChar("", '\n') == [""];
    assert Lines("") == [""] && Blank("");
    OneRecord(DropReturn(text));
  }

  lemma OneRecord(text: string)
    requires !Blank(text)
    ensures Numbered([text, ""], 1) == [RecordLine(1, text)]
  {
    assert [text, ""][1..] == [""] && Numbered([""], 2) == [];
  }

  /** Whatever the codec does, the second self-check never fires: the first one implies it. */
  lemma {:induction false} IdempotenceCheckIsImplied<R, E>(codec: Codec<R, E>, content: string)
    ensures Canonical(codec, content) != Err(NotIdempotent)
  {
    hide RecordLines, RenderFixture;
    BodyFailures(codec, RecordLines(content));
    var lines := RecordLines(content);
    if lines != [] {
      BodyFailures(codec, lines[1..]);
      var body := DecodeBody(codec, lines[1..]);
      if body.Ok? {
        var again := RecordLines(RenderFixture(codec, lines[0].text, body.value));
        BodyFailures(codec, if again == [] then [] else again[1..]);
      }
    }
  }

  lemma {:induction false} BodyFailures<R, E>(codec: Codec<R, E>, lines: seq<RecordLine>)
    ensures DecodeBody(codec, lines) != Err(NotIdempotent) && DecodeBody(codec, lines) != Err(ChangedStream)
  {
    if lines != [] { BodyFailures(codec, lines[1..]); }
  }

  // ----- codecs that keep their promises

  function DecodeAll<R, E>(codec: Codec<R, E>, records: seq<R>): Option<seq<E>> {
    if records == [] then Some([])
    else
      match (codec.decode(records[0]), DecodeAll(codec, records[1..]))
      case (Some(events), Some(rest)) => Some(events + rest)
      case _ => None
  }

  ghost predicate GoodRow<R, E>(codec: Codec<R, E>, record: R) {
    var row := codec.stringify(record);
    !Blank(row) && '\n' !in row && !EndsInReturn(row) && codec.parse(row) == Some(record)
  }

  /** Rows are single lines that parse back, and packed records decode to what was packed. */
  ghost predicate Lawful<R(!new), E(!new)>(codec: Codec<R, E>) {
    && (forall record :: GoodRow(codec, record))
    && (forall events :: DecodeAll(codec, codec.pack(events)) == Some(events))
  }

  lemma {:induction false} RowsReadBack<R(!new), E(!new)>(codec: Codec<R, E>, records: seq<R>, first: nat)
    requires Lawful(codec) && DecodeAll(codec, records).Some?
    ensures DecodeBody(codec, Numbered(Lines(Join(Rows(codec, records) + [""], "\n")), first))
      == Ok(DecodeAll(codec, records).value)
  {
    if records == [] {
      NoRows(codec, first);
      assert Rows(codec, records) + [""] == [""];
    } else {
      RowsReadBack(codec, records[1..], first + 1);
      var row, rest := codec.stringify(records[0]), Rows(codec, records[1..]) + [""];
      assert Rows(codec, records) + [""] == [row] + rest;
      assert GoodRow(codec, records[0]);
      hide Lines, Numbered, Blank, Join, Rows, Lawful;
      LinesAfter(row, rest);
      NumberedCons(row, Lines(Join(rest, "\n")), first);
      DecodeCons(codec, RecordLine(first, row), Numbered(Lines(Join(rest, "\n")), first + 1));
    }
  }

  lemma NoRows<R, E>(codec: Codec<R, E>, first: nat)
    ensures DecodeBody(codec, Numbered(Lines(Join([""], "\n")), first)) == Ok([])
  {
    assert SplitChar("", '\n') == [""];
    assert Numbered([""], first) == [];
  }

  lemma DecodeCons<R, E>(codec: Codec<R, E>, line: RecordLine, rest: seq<RecordLine>)
    requires codec.parse(line.text).Some? && codec.decode(codec.parse(line.text).value).Some?
    requires DecodeBody(codec, rest).Ok?
    ensures DecodeBody(codec, [line] + rest)
      == Ok(codec.decode(codec.parse(line.text).value).value + DecodeBody(codec, rest).value)
  {
    assert ([line] + rest)[1..] == rest;
  }

  /** Over a lawful codec every session text whose body decodes is canonicalised; no self-check fails. */
  lemma {:induction false} LawfulNeverRejects<R(!new), E(!new)>(codec: Codec<R, E>, content: string)
    requires Lawful(codec) && IsSession(codec, content)
    ensures match Body(codec, content)
            case Ok(events) => Canonical(codec, content)
              == Ok(Some(RenderFixture(codec, Header(content).value, events)))
            case Err(e) => Canonical(codec, content) == Err(e)
  {
    hide RecordLines, RenderFixture, DecodeBody, Lines, Numbered, Join, Rows;
    if Body(codec, content).Ok? {
      var events := Body(codec, content).value;
      HeaderIsLine(content);
      RenderedRecords(codec, Header(content).value, events);
      RowsReadBack(codec, codec.pack(events), 2);
    }
  }
}
