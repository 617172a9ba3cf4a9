/** The two streaming buffers equal what they would make of the whole text, however it is chunked. */
module Streams {

  function Join(chunks: seq<string>): string {
    if chunks == [] then "" else chunks[0] + Join(chunks[1..])
  }

  lemma {:induction false} JoinAppend(chunks: seq<string>, text: string)
    ensures Join(chunks + [text]) == Join(chunks) + text
    decreases |chunks|
  {
    if chunks == [] {
      assert [text][1..] == [];
    } else {
      assert (chunks + [text])[1..] == chunks[1..] + [text];
      JoinAppend(chunks[1..], text);
    }
  }

  // ---------------------------------------------------------------- captured output

  const MAX_CAPTURED_CHARS: nat := 2 * 1024 * 1024

  function Last(text: string, cap: nat): (r: string)
    ensures |r| == if |text| <= cap then |text| else cap
    ensures text == text[..|text| - |r|] + r
  {
    if |text| <= cap then text else text[|text| - cap..]
  }

  /** Only the last characters matter to what later stays. */
  lemma LastOfLast(a: string, b: string, cap: nat)
    ensures Last(Last(a, cap) + b, cap) == Last(a + b, cap)
  {
    if |a| > cap {
      var stays := Last(a, cap);
      var front := a[..|a| - |stays|];
      assert a == front + stays;
      assert (front + stays) + b == front + (stays + b);
      LastDropsFront(front, stays + b, cap);
    }
  }

  /** What follows a dropped front is the same text's end. */
  lemma LastDropsFront(front: string, rest: string, cap: nat)
    requires |rest| >= cap
    ensures Last(front + rest, cap) == Last(rest, cap)
  {
    var cut := |rest| - cap;
    assert (front + rest)[|front| + cut..] == rest[cut..];
  }

  class OutputBuffer {
    var chunks: seq<string>
    var length: nat
    /** What was handed to the live callback. */
    var forwarded: seq<string>
    ghost var pushed: string

    ghost predicate Valid()
      reads this
    {
      && length == |Join(chunks)|
      && Join(chunks) == Last(pushed, MAX_CAPTURED_CHARS)
      && Join(forwarded) == pushed
    }

    constructor ()
      ensures Valid() && pushed == "" && forwarded == []
    {
      chunks, length, pushed, forwarded := [], 0, "", [];
    }

    method Push(text: string)
      requires Valid()
      modifies this
      ensures Valid()
      ensures pushed == old(pushed) + text
      ensures forwarded == if text == "" then old(forwarded) else old(forwarded) + [text]
    {
      if text == "" { return; }
      JoinAppend(forwarded, text);
      JoinAppend(chunks, text);
      LastOfLast(pushed, text, MAX_CAPTURED_CHARS);
      forwarded, pushed := forwarded + [text], pushed + text;
      chunks, length := chunks + [text], length + |text|;
      Trim();
    }

    /** Shed the oldest characters, by the chunk as long as a whole one is too many, until the cap fits. */
    method Trim()
      requires length == |Join(chunks)|
      modifies this`chunks, this`length
      ensures length == |Join(chunks)|
      ensures Join(chunks) == Last(old(Join(chunks)), MAX_CAPTURED_CHARS)
    {
      while length > MAX_CAPTURED_CHARS
        invariant length == |Join(chunks)|
        invariant Last(Join(chunks), MAX_CAPTURED_CHARS) == Last(old(Join(chunks)), MAX_CAPTURED_CHARS)
        decreases |chunks|, length
      {
        var first := chunks[0];
        if length - |first| >= MAX_CAPTURED_CHARS {
          LastDropsFront(first, Join(chunks[1..]), MAX_CAPTURED_CHARS);
          chunks, length := chunks[1..], length - |first|;
        } else {
          var cut := length - MAX_CAPTURED_CHARS;
          assert first + Join(chunks[1..]) == first[..cut] + (first[cut..] + Join(chunks[1..]));
          LastDropsFront(first[..cut], first[cut..] + Join(chunks[1..]), MAX_CAPTURED_CHARS);
          chunks, length := [first[cut..]] + chunks[1..], MAX_CAPTURED_CHARS;
        }
      }
    }

    method Finish() returns (text: string)
      requires Valid()
      ensures text == Last(pushed, MAX_CAPTURED_CHARS)
    {
      text := Join(chunks);
    }
  }

  /** A whole stream, captured: the last characters of its text, whatever the chunks were. */
  method Capture(stream: seq<string>) returns (text: string)
    ensures text == Last(Join(stream), MAX_CAPTURED_CHARS)
    ensures |Join(stream)| <= 2097152 ==> text == Join(stream)
    ensures |Join(stream)| > 2097152 ==> text == Join(stream)[|Join(stream)| - 2097152..]
  {
    var buffer := new OutputBuffer();
    for n := 0 to |stream|
      invariant buffer.Valid() && fresh(buffer) && buffer.pushed == Join(stream[..n])
    {
      buffer.Push(stream[n]);
      JoinAppend(stream[..n], stream[n]);
      assert stream[..n + 1] == stream[..n] + [stream[n]];
    }
    assert stream[..|stream|] == stream;
    text := buffer.Finish();
  }

  // ---------------------------------------------------------------- lines

  /** White space as `String.prototype.trim` sees it (ECMA-262, WhiteSpace and LineTerminator). */
  predicate IsSpace(c: char) {
    || '\t' <= c <= '\r' || c == ' ' || c == '\U{A0}' || c == '\U{1680}' || '\U{2000}' <= c <= '\U{200A}'
    || c == '\U{2028}' || c == '\U{2029}' || c == '\U{202F}' || c == '\U{205F}' || c == '\U{3000}' || c == '\U{FEFF}'
  }

  predicate Blank(line: string) {
    forall c :: c in line ==> IsSpace(c)
  }

  function StripCr(line: string): string {
    if line != "" && line[|line| - 1] == '\r' then line[..|line| - 1] else line
  }

  /** The first newline, or the length when there is none. */
  predicate FirstNewline(text: string, i: nat) {
    && i <= |text|
    && '\n' !in text[..i]
    && (i < |text| ==> text[i] == '\n')
  }

  /** `buffer.indexOf("\n")`, with the length for "not found". */
  method IndexOfNewline(text: string) returns (i: nat)
    ensures FirstNewline(text, i)
  {
    i := 0;
    while i < |text| && text[i] != '\n'
      invariant i <= |text| && '\n' !in text[..i]
    {
      assert text[..i + 1] == text[..i] + [text[i]];
      i := i + 1;
    }
  }

  /** A blank line is not handed on. */
  function Emit(line: string): seq<string> {
    if Blank(line) then [] else [line]
  }

  /** The lines handed on so far, and the unfinished one. */
  datatype Reading = Reading(lines: seq<string>, rest: string)

  /** Reading a text one character at a time. */
  function Read(text: string): Reading {
    if text == "" then Reading([], "")
    else
      var before := Read(text[..|text| - 1]);
      var c := text[|text| - 1];
      if c == '\n' then Reading(before.lines + Emit(StripCr(before.rest)), "")
      else before.(rest := before.rest + [c])
  }

  /** Every line of a text, the unfinished one as it stands. */
  function AllLines(text: string): seq<string> {
    Read(text).lines + Emit(Read(text).rest)
  }

  /** Reading on after `before`. */
  function ReadOn(before: Reading, text: string): Reading {
    var r := Read(before.rest + text);
    r.(lines := before.lines + r.lines)
  }

  lemma ReadOneMore(text: string, c: char)
    ensures Read(text + [c]) ==
            if c == '\n' then Reading(Read(text).lines + Emit(StripCr(Read(text).rest)), "")
            else Read(text).(rest := Read(text).rest + [c])
  {
    assert (text + [c])[..|text|] == text;
  }

  lemma {:induction false} UnfinishedLine(line: string)
    requires '\n' !in line
    ensures Read(line) == Reading([], line)
    decreases |line|
  {
    if line != "" {
      var before, c := line[..|line| - 1], line[|line| - 1];
      assert line == before + [c];
      UnfinishedLine(before);
    }
  }

  /** The unfinished line never holds a newline. */
  lemma {:induction false} RestHasNoNewline(text: string)
    ensures '\n' !in Read(text).rest
    decreases |text|
  {
    if text != "" { RestHasNoNewline(text[..|text| - 1]); }
  }

  /** Text read in two parts gives the lines of the whole. */
  lemma {:induction false} ReadInParts(a: string, b: string)
    ensures Read(a + b) == ReadOn(Read(a), b)
    decreases |b|
  {
    if b == "" {
      assert a + b == a && Read(a).rest + b == Read(a).rest;
      RestHasNoNewline(a);
      UnfinishedLine(Read(a).rest);
    } else {
      var before, c := b[..|b| - 1], b[|b| - 1];
      ReadInParts(a, before);
      assert a + b == a + before + [c] && Read(a).rest + b == Read(a).rest + before + [c];
      ReadOneMore(a + before, c);
      ReadOneMore(Read(a).rest + before, c);
    }
  }

  lemma LineEnds(line: string)
    requires '\n' !in line
    ensures Read(line + "\n") == Reading(Emit(StripCr(line)), "")
  {
    UnfinishedLine(line);
    ReadOneMore(line, '\n');
  }

  /** A finished line is handed on without its carriage return. */
  lemma FinishedLine(line: string, rest: string)
    requires '\n' !in line
    ensures Read(line + "\n" + rest) == Reading(Emit(StripCr(line)) + Read(rest).lines, Read(rest).rest)
  {
    LineEnds(line);
    ReadInParts(line + "\n", rest);
    assert "" + rest == rest;
  }

  /** What is due after `lines`, with `buffer` still to be read. */
  function Due(lines: seq<string>, buffer: string): Reading {
    Reading(lines + Read(buffer).lines, Read(buffer).rest)
  }

  /** Taking the first line off the buffer leaves what is due. */
  lemma TakeLine(lines: seq<string>, buffer: string, i: nat)
    requires FirstNewline(buffer, i) && i < |buffer|
    ensures Due(lines, buffer) == Due(lines + Emit(StripCr(buffer[..i])), buffer[i + 1..])
  {
    assert buffer == buffer[..i] + "\n" + buffer[i + 1..];
    FinishedLine(buffer[..i], buffer[i + 1..]);
  }

  lemma WrittenInParts(flushed: seq<string>, written: string, chunk: string)
    ensures Due(flushed, written + chunk) == Due(flushed + Read(written).lines, Read(written).rest + chunk)
  {
    ReadInParts(written, chunk);
  }

  /** The text that has the given lines, each ended by a newline, with or without a carriage return. */
  function Text(lines: seq<string>, crlf: bool): string {
    if lines == [] then "" else lines[0] + (if crlf then "\r\n" else "\n") + Text(lines[1..], crlf)
  }

  /** The characters that are white space, one by one. */
  const WHITE_SPACE: set<char> := {
    '\U{9}', '\U{A}', '\U{B}', '\U{C}', '\U{D}', '\U{20}', '\U{A0}', '\U{1680}', '\U{2000}', '\U{2001}', '\U{2002}',
    '\U{2003}', '\U{2004}', '\U{2005}', '\U{2006}', '\U{2007}', '\U{2008}', '\U{2009}', '\U{200A}', '\U{2028}',
    '\U{2029}', '\U{202F}', '\U{205F}', '\U{3000}', '\U{FEFF}'}

  /** A line is handed on, as it is, exactly when it has a character that is not white space. */
  lemma HandedOnExactlyWhen(line: string)
    ensures Emit(line) == if exists c :: c in line && c !in WHITE_SPACE then [line] else []
  {
    forall c | c in line ensures IsSpace(c) <==> c in WHITE_SPACE { SpacesAreListed(c); }
  }

  lemma SpacesAreListed(c: char)
    ensures IsSpace(c) <==> c in WHITE_SPACE
  {
  }

  /** Not blank, no line break in it, and, where lines end in a bare newline, no carriage return at its end. */
  predicate Plain(line: string, crlf: bool) {
    && (exists c :: c in line && c !in WHITE_SPACE) && '\n' !in line
    && (crlf || line[|line| - 1] != '\r')
  }

  lemma PlainLineReadsBack(line: string, crlf: bool)
    requires Plain(line, crlf)
    ensures var ended := if crlf then line + "\r" else line; '\n' !in ended && Emit(StripCr(ended)) == [line]
  {
    HandedOnExactlyWhen(line);
  }

  /** Lines written with either ending read back as they were, if they are lines at all. */
  lemma {:induction false} WrittenLinesReadBack(lines: seq<string>, crlf: bool)
    requires forall line :: line in lines ==> Plain(line, crlf)
    ensures Read(Text(lines, crlf)) == Reading(lines, "")
    decreases |lines|
  {
    if lines != [] {
      var line, rest := lines[0], Text(lines[1..], crlf);
      var ended := if crlf then line + "\r" else line;
      PlainLineReadsBack(line, crlf);
      assert Text(lines, crlf) == ended + "\n" + rest;
      FinishedLine(ended, rest);
      WrittenLinesReadBack(lines[1..], crlf);
      assert lines == [line] + lines[1..];
    }
  }

  /** What follows the last line break is handed on as it stands, a carriage return at its end included. */
  lemma UnfinishedLineStands(lines: seq<string>, crlf: bool, rest: string)
    requires (forall line :: line in lines ==> Plain(line, crlf)) && '\n' !in rest
    ensures AllLines(Text(lines, crlf) + rest)
            == lines + if exists c :: c in rest && c !in WHITE_SPACE then [rest] else []
  {
    WrittenLinesReadBack(lines, crlf);
    ReadInParts(Text(lines, crlf), rest);
    assert "" + rest == rest && lines + [] == lines;
    UnfinishedLine(rest);
    HandedOnExactlyWhen(rest);
  }

  class LineSink {
    var buffer: string
    /** Every line handed to the callback. */
    var lines: seq<string>
    /** The lines handed on before the last flush, and the text written since. */
    ghost var flushed: seq<string>
    ghost var written: string

    ghost predicate Valid()
      reads this
    {
      && buffer == Read(written).rest
      && lines == flushed + Read(written).lines
    }

    constructor ()
      ensures Valid() && lines == [] && written == "" && flushed == []
    {
      buffer, lines, flushed, written := "", [], [], "";
    }

    /** The callback gets the line unless it is blank. */
    method HandOn(line: string)
      modifies this`lines
      ensures lines == old(lines) + Emit(line)
    {
      if !Blank(line) { lines := lines + [line]; }
    }

    method Write(chunk: string)
      requires Valid()
      modifies this
      ensures Valid()
      ensures written == old(written) + chunk && flushed == old(flushed)
    {
      WrittenInParts(flushed, written, chunk);
      written, buffer := written + chunk, buffer + chunk;
      DrainLines();
    }

    method DrainLines()
      modifies this`buffer, this`lines
      ensures Reading(lines, buffer) == old(Due(lines, buffer))
    {
      var index: nat := IndexOfNewline(buffer);
      while index < |buffer|
        invariant FirstNewline(buffer, index)
        invariant Due(lines, buffer) == old(Due(lines, buffer))
        decreases |buffer|
      {
        var line := StripCr(buffer[..index]);
        TakeLine(lines, buffer, index);
        buffer := buffer[index + 1..];
        HandOn(line);
        index := IndexOfNewline(buffer);
      }
      assert buffer[..index] == buffer;
      UnfinishedLine(buffer);
    }

    /** The unfinished line is handed on as it stands. */
    method Flush()
      requires Valid()
      modifies this
      ensures Valid()
      ensures lines == old(flushed) + AllLines(old(written))
      ensures written == "" && flushed == lines
    {
      HandOn(buffer);
      buffer, written, flushed := "", "", lines;
    }
  }

  /** A whole stream through the sink: the lines of its text, whatever the chunks were. */
  method SinkLines(stream: seq<string>) returns (lines: seq<string>)
    ensures lines == AllLines(Join(stream))
  {
    var sink := new LineSink();
    for n := 0 to |stream|
      invariant sink.Valid() && fresh(sink) && sink.written == Join(stream[..n]) && sink.flushed == []
    {
      sink.Write(stream[n]);
      JoinAppend(stream[..n], stream[n]);
      assert stream[..n + 1] == stream[..n] + [stream[n]];
    }
    assert stream[..|stream|] == stream;
    sink.Flush();
    lines := sink.lines;
  }
}
