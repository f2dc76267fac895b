/** Line framing of the MCP stream: lines are read through a buffer that fills in chunks of any size. */
module Framing {
  import opened Wrappers
  import Lists
  import opened Utf8

  const MAX_MESSAGE_BYTES := 4 * 1024 * 1024
  const NEWLINE: byte := 10

  type Line = seq<byte>

  datatype Failure = TooLong

  /** A buffered reader: the bytes not consumed yet, the first `buffered` of them in the buffer. */
  class Reader {
    var stream: seq<byte>
    var buffered: nat

    ghost predicate Valid()
      reads this
    {
      buffered <= |stream|
    }

    constructor (stream: seq<byte>)
      ensures Valid() && this.stream == stream
    {
      this.stream := stream;
      buffered := 0;
    }

    // An empty buffer is refilled with at least one byte, unless the stream is at its end.
    method FillBuf() returns (available: seq<byte>)
      requires Valid()
      modifies this`buffered
      ensures Valid() && available == stream[..buffered] && (available == [] <==> stream == [])
    {
      if buffered == 0 && stream != [] {
        var chunk: nat :| 1 <= chunk <= |stream|;
        buffered := chunk;
      }
      available := stream[..buffered];
    }

    method Consume(n: nat)
      requires Valid() && n <= buffered
      modifies this
      ensures Valid() && stream == old(stream)[n..]
    {
      stream := stream[n..];
      buffered := buffered - n;
    }
  }

  // The bytes up to and with the first newline, or all of them.
  function FirstLine(stream: seq<byte>): (line: Line)
    ensures |line| <= |stream| && line == stream[..|line|] && (line == [] <==> stream == [])
    ensures forall i | 0 <= i < |line| - 1 :: line[i] != NEWLINE
    ensures |line| < |stream| ==> line[|line| - 1] == NEWLINE
  {
    if stream == [] then []
    else if stream[0] == NEWLINE then stream[..1]
    else [stream[0]] + FirstLine(stream[1..])
  }

  function NextLine(stream: seq<byte>): Result<Option<Line>, Failure> {
    if stream == [] then Ok(None)
    else if |FirstLine(stream)| > MAX_MESSAGE_BYTES then Err(TooLong)
    else Ok(Some(FirstLine(stream)))
  }

  // The bytes of `available` that belong to the current line.
  method LinePart(available: seq<byte>) returns (consumed: nat)
    requires available != []
    ensures consumed == |FirstLine(available)|
  {
    consumed := 0;
    while consumed < |available| && available[consumed] != NEWLINE
      invariant 0 <= consumed <= |available|
      invariant |FirstLine(available)| == consumed + |FirstLine(available[consumed..])|
    {
      assert available[consumed..][1..] == available[consumed + 1..];
      consumed := consumed + 1;
    }
    if consumed < |available| {
      consumed := consumed + 1;
    }
  }

  lemma FirstLineNext(b: byte, rest: seq<byte>)
    ensures FirstLine([b] + rest) == [b] + if b == NEWLINE then [] else FirstLine(rest)
  {
    assert ([b] + rest)[1..] == rest && ([b] + rest)[..1] == [b] + [];
  }

  lemma {:induction false} FirstLineChunk(head: seq<byte>, tail: seq<byte>)
    requires head != []
    ensures FirstLine(head + tail) ==
            if FirstLine(head)[|FirstLine(head)| - 1] == NEWLINE then FirstLine(head) else head + FirstLine(tail)
  {
    var (first, rest) := ([head[0]], head[1..]);
    Lists.FirstAndRest(head);
    Lists.Assoc(first, rest, tail);
    FirstLineNext(head[0], rest);
    FirstLineNext(head[0], rest + tail);
    if head[0] != NEWLINE {
      Lists.Assoc(first, rest, FirstLine(tail));
      if rest == [] {
        assert rest + tail == tail && rest + FirstLine(tail) == FirstLine(tail);
      } else {
        FirstLineChunk(rest, tail);
      }
    }
  }

  // The loop state: `line` has been read of the first line of `start`, `stream` is to come.
  ghost predicate Reading(start: seq<byte>, line: Line, stream: seq<byte>) {
    start == line + stream && FirstLine(start) == line + FirstLine(stream) && |line| <= MAX_MESSAGE_BYTES
  }

  // The first line has been read.
  ghost predicate Done(start: seq<byte>, line: Line, stream: seq<byte>) {
    FirstLine(start) == line && start[|line|..] == stream
  }

  lemma DropBoth(line: Line, stream: seq<byte>, n: nat)
    requires n <= |stream|
    ensures (line + stream)[|line| + n..] == stream[n..]
  {
  }

  lemma ChunkEnds(start: seq<byte>, line: Line, available: seq<byte>, tail: seq<byte>)
    requires Reading(start, line, available + tail) && available != []
    requires FirstLine(available)[|FirstLine(available)| - 1] == NEWLINE
    ensures Done(start, line + FirstLine(available), (available + tail)[|FirstLine(available)|..])
  {
    FirstLineChunk(available, tail);
    DropBoth(line, available + tail, |FirstLine(available)|);
  }

  lemma ChunkContinues(start: seq<byte>, line: Line, available: seq<byte>, tail: seq<byte>)
    requires Reading(start, line, available + tail) && available != []
    requires FirstLine(available)[|FirstLine(available)| - 1] != NEWLINE
    ensures FirstLine(available) == available && |line| + |available| <= |FirstLine(start)|
    ensures |line| + |available| <= MAX_MESSAGE_BYTES ==> Reading(start, line + available, tail)
  {
    FirstLineChunk(available, tail);
    NoNewline(available);
    Lists.Assoc(line, available, tail);
    Lists.Assoc(line, available, FirstLine(tail));
  }

  lemma {:induction false} NoNewline(bytes: seq<byte>)
    requires bytes != [] && FirstLine(bytes)[|FirstLine(bytes)| - 1] != NEWLINE
    ensures FirstLine(bytes) == bytes
  {
    Lists.FirstAndRest(bytes);
    if |bytes| > 1 {
      NoNewline(bytes[1..]);
    }
  }

  lemma PartRead(start: seq<byte>, line: Line, stream: seq<byte>, available: seq<byte>, consumed: nat)
    requires Reading(start, line, stream) && available != [] && available <= stream
    requires consumed == |FirstLine(available)|
    ensures 1 <= consumed <= |available| && |line| + consumed <= |FirstLine(start)|
    ensures var later := line + available[..consumed];
      if available[consumed - 1] == NEWLINE then Done(start, later, stream[consumed..])
      else |line| + consumed <= MAX_MESSAGE_BYTES ==> Reading(start, later, stream[consumed..])
  {
    var tail := stream[|available|..];
    PrefixCut(stream, available);
    if available[consumed - 1] == NEWLINE {
      ChunkEnds(start, line, available, tail);
    } else {
      ChunkContinues(start, line, available, tail);
    }
  }

  lemma PrefixCut(stream: seq<byte>, available: seq<byte>)
    requires available <= stream
    ensures stream == available + stream[|available|..] && available[..|available|] == available
  {
  }

  lemma AllRead(start: seq<byte>, line: Line)
    requires Reading(start, line, [])
    ensures Done(start, line, [])
  {
    assert line + [] == line;
  }

  // One line, whatever the chunks: the result depends on the bytes alone.
  method ReadBoundedLine(reader: Reader) returns (r: Result<Option<Line>, Failure>)
    requires reader.Valid()
    modifies reader
    ensures reader.Valid() && r == NextLine(old(reader.stream))
    ensures r.Ok? ==> reader.stream == old(reader.stream)[|FirstLine(old(reader.stream))|..]
  {
    var line: Line := [];
    ghost var start := reader.stream;
    assert Reading(start, [], start);
    while true
      invariant reader.Valid() && Reading(start, line, reader.stream)
      decreases |reader.stream|
    {
      var available := reader.FillBuf();
      if available == [] {
        AllRead(start, line);
        return if line == [] then Ok(None) else Ok(Some(line));
      }
      var consumed := LinePart(available);
      PartRead(start, line, reader.stream, available, consumed);
      if |line| + consumed > MAX_MESSAGE_BYTES {
        return Err(TooLong);
      }
      line := line + available[..consumed];
      reader.Consume(consumed);
      if available[consumed - 1] == NEWLINE {
        return Ok(Some(line));
      }
    }
  }

  function Lines(stream: seq<byte>): seq<Line>
    decreases |stream|
  {
    if stream == [] then [] else [FirstLine(stream)] + Lines(stream[|FirstLine(stream)|..])
  }

  function Concat(lines: seq<Line>): seq<byte> {
    if lines == [] then [] else lines[0] + Concat(lines[1..])
  }

  // A way to cut bytes into lines: none is empty, a newline ends a line and every line but the last has one.
  ghost predicate Framed(lines: seq<Line>) {
    && (forall i | 0 <= i < |lines| :: lines[i] != [])
    && (forall i, j | 0 <= i < |lines| && 0 <= j < |lines[i]| - 1 :: lines[i][j] != 10)
    && (forall i | 0 <= i < |lines| - 1 :: lines[i][|lines[i]| - 1] == 10)
  }

  lemma FramedCons(line: Line, rest: seq<Line>)
    requires Framed(rest) && line != [] && forall j | 0 <= j < |line| - 1 :: line[j] != NEWLINE
    requires rest != [] ==> line[|line| - 1] == NEWLINE
    ensures Framed([line] + rest)
  {
    var all := [line] + rest;
    assert forall i | 1 <= i < |all| :: all[i] == rest[i - 1];
  }

  // There is exactly one such way.
  lemma {:induction false} LinesFramed(stream: seq<byte>)
    ensures Framed(Lines(stream)) && Concat(Lines(stream)) == stream
    decreases |stream|
  {
    if stream != [] {
      var (line, rest) := (FirstLine(stream), stream[|FirstLine(stream)|..]);
      LinesFramed(rest);
      FramedCons(line, Lines(rest));
      assert stream == line + rest;
      assert Lines(stream)[1..] == Lines(rest);
    }
  }

  lemma {:induction false} FramingUnique(lines: seq<Line>)
    requires Framed(lines)
    ensures Lines(Concat(lines)) == lines
  {
    if lines != [] {
      var (line, rest) := (lines[0], Concat(lines[1..]));
      FramedRest(lines);
      FramingUnique(lines[1..]);
      WholeLine(line);
      if |lines| > 1 {
        FirstLineChunk(line, rest);
      } else {
        assert line + rest == line;
      }
      LinesNext(line, rest);
      Lists.FirstAndRest(lines);
    }
  }

  lemma FramedRest(lines: seq<Line>)
    requires Framed(lines) && lines != []
    ensures Framed(lines[1..])
    ensures forall j | 0 <= j < |lines[0]| - 1 :: lines[0][j] != NEWLINE
    ensures |lines| > 1 ==> lines[0][|lines[0]| - 1] == NEWLINE
  {
    assert forall i | 0 <= i < |lines| - 1 :: lines[1..][i] == lines[i + 1];
  }

  lemma LinesNext(line: Line, rest: seq<byte>)
    requires line != [] && FirstLine(line + rest) == line
    ensures Lines(line + rest) == [line] + Lines(rest)
  {
    Lists.CutAppend(line, rest);
  }

  lemma {:induction false} WholeLine(line: Line)
    requires forall j | 0 <= j < |line| - 1 :: line[j] != NEWLINE
    ensures FirstLine(line) == line
  {
    if |line| > 1 {
      WholeLine(line[1..]);
    }
  }

  // What a session reads: all lines, or those before the first that is too long.
  function Session(lines: seq<Line>): (seq<Line>, bool) {
    if lines == [] then ([], true)
    else if |lines[0]| > MAX_MESSAGE_BYTES then ([], false)
    else
      var (rest, ok) := Session(lines[1..]);
      ([lines[0]] + rest, ok)
  }

  lemma {:induction false} SessionExactly(lines: seq<Line>)
    ensures var (read, ok) := Session(lines);
      && read <= lines && (forall i | 0 <= i < |read| :: |read[i]| <= 4_194_304)
      && (ok <==> read == lines)
      && (!ok ==> |lines[|read|]| > 4_194_304)
  {
    if lines != [] {
      SessionExactly(lines[1..]);
    }
  }

  // `lines` have been read of the session that starts with `start`; `stream` is to come.
  ghost predicate Halfway(start: seq<byte>, lines: seq<Line>, stream: seq<byte>) {
    Session(Lines(start)) == (lines + Session(Lines(stream)).0, Session(Lines(stream)).1)
  }

  lemma HalfwayNext(start: seq<byte>, lines: seq<Line>, stream: seq<byte>)
    requires Halfway(start, lines, stream) && stream != [] && |FirstLine(stream)| <= MAX_MESSAGE_BYTES
    ensures Halfway(start, lines + [FirstLine(stream)], stream[|FirstLine(stream)|..])
  {
    var (line, rest) := (FirstLine(stream), stream[|FirstLine(stream)|..]);
    assert Lines(stream)[0] == line && Lines(stream)[1..] == Lines(rest);
    assert lines + ([line] + Session(Lines(rest)).0) == lines + [line] + Session(Lines(rest)).0;
  }

  method ReadAll(reader: Reader) returns (lines: seq<Line>, ok: bool)
    requires reader.Valid()
    modifies reader
    ensures (lines, ok) == Session(Lines(old(reader.stream)))
    ensures ok ==> Concat(lines) == old(reader.stream) && reader.stream == []
  {
    lines := [];
    ghost var start := reader.stream;
    assert [] + Session(Lines(start)).0 == Session(Lines(start)).0;
    while true
      invariant reader.Valid() && Halfway(start, lines, reader.stream)
      decreases |reader.stream|
    {
      ghost var stream := reader.stream;
      var next := ReadBoundedLine(reader);
      if next.Err? || next.value.None? {
        ok := next.Ok?;
        assert lines + [] == lines;
        break;
      }
      HalfwayNext(start, lines, stream);
      lines := lines + [next.value.value];
    }
    LinesFramed(start);
    SessionExactly(Lines(start));
  }
}
