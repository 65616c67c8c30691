/**
 Incremental extraction of SSE lines from a byte stream.

 Bytes arrive in arbitrary chunks. After each chunk the buffer is scanned from its start,
 complete lines are taken out, and the unfinished tail stays for the next chunk.
 */
module SseLines {
  import opened Widths

  const NEWLINE: Byte := 10

  type Line = seq<Byte>

  datatype Error = LineTooLong | InvalidLine | BufferTooLong

  datatype Scan = Lines(lines: seq<Line>, rest: seq<Byte>) | Failed(error: Error)

  // ---------------------------------------------------------------- the scanner, byte by byte

  /** Scanning `input` with `open` as the line begun so far and `lines` as the lines completed so far. */
  function ScanFrom(open: seq<Byte>, lines: seq<Line>, input: seq<Byte>, maxLine: nat, isText: Line -> bool): Scan
    decreases |input|
  {
    if input == [] then Lines(lines, open)
    else if |open| > maxLine then Failed(LineTooLong)
    else if input[0] != NEWLINE then ScanFrom(open + [input[0]], lines, input[1..], maxLine, isText)
    else if !isText(open) then Failed(InvalidLine)
    else ScanFrom([], lines + [open], input[1..], maxLine, isText)
  }

  function ScanAll(input: seq<Byte>, maxLine: nat, isText: Line -> bool): Scan {
    ScanFrom([], [], input, maxLine, isText)
  }

  class LineBuffer {
    var buf: seq<Byte>

    constructor ()
      ensures buf == []
    {
      buf := [];
    }

    /** Takes the complete lines out of the buffer; the buffer is left alone when the scan fails. */
    method Extract(maxLine: nat, isText: Line -> bool) returns (r: Scan)
      modifies this
      ensures r == ScanAll(old(buf), maxLine, isText)
      ensures buf == if r.Lines? then r.rest else old(buf)
    {
      var lines: seq<Line> := [];
      var start, consumed := 0, 0;
      for i := 0 to |buf|
        invariant buf == old(buf)
        invariant 0 <= start <= i && consumed == start
        invariant ScanFrom(buf[start..i], lines, buf[i..], maxLine, isText) == ScanAll(buf, maxLine, isText)
      {
        if i - start > maxLine { return Failed(LineTooLong); }
        assert buf[i..][1..] == buf[i + 1..];
        if buf[i] == NEWLINE {
          if !isText(buf[start..i]) { return Failed(InvalidLine); }
          lines := lines + [buf[start..i]];
          start := i + 1;
          consumed := start;
        } else {
          assert buf[start..i] + [buf[i]] == buf[start..i + 1];
        }
      }
      assert buf[consumed..|buf|] == buf[consumed..];
      buf := buf[consumed..];
      r := Lines(lines, buf);
    }
  }

  /** The feeding loop: append a chunk, extract, keep the lines; stop at the first failure. */
  method Feed(chunks: seq<seq<Byte>>, maxLine: nat, maxBuffer: nat, isText: Line -> bool) returns (r: Scan)
    ensures r == FeedAll([], [], chunks, maxLine, maxBuffer, isText)
  {
    var buffer := new LineBuffer();
    var lines: seq<Line> := [];
    for i := 0 to |chunks|
      invariant FeedAll(buffer.buf, lines, chunks[i..], maxLine, maxBuffer, isText) ==
                FeedAll([], [], chunks, maxLine, maxBuffer, isText)
    {
      if |buffer.buf| + |chunks[i]| > maxBuffer { return Failed(BufferTooLong); }
      buffer.buf := buffer.buf + chunks[i];
      var found := buffer.Extract(maxLine, isText);
      if found.Failed? { return found; }
      lines := lines + found.lines;
      assert chunks[i..][1..] == chunks[i + 1..];
    }
    r := Lines(lines, buffer.buf);
  }

  function FeedAll(buf: seq<Byte>, lines: seq<Line>, chunks: seq<seq<Byte>>, maxLine: nat, maxBuffer: nat,
                   isText: Line -> bool): Scan
    decreases |chunks|
  {
    if chunks == [] then Lines(lines, buf)
    else if |buf| + |chunks[0]| > maxBuffer then Failed(BufferTooLong)
    else
      var found := ScanAll(buf + chunks[0], maxLine, isText);
      if found.Failed? then found
      else FeedAll(found.rest, lines + found.lines, chunks[1..], maxLine, maxBuffer, isText)
  }

  // ---------------------------------------------------------------- a scan is restartable

  lemma {:induction false} ScanContinues(open: seq<Byte>, lines: seq<Line>, a: seq<Byte>, b: seq<Byte>, maxLine: nat,
                                         isText: Line -> bool)
    ensures ScanFrom(open, lines, a + b, maxLine, isText) ==
            match ScanFrom(open, lines, a, maxLine, isText)
            case Failed(e) => Failed(e)
            case Lines(lines', open') => ScanFrom(open', lines', b, maxLine, isText)
    decreases |a|
  {
    if a == [] {
      assert a + b == b;
    } else {
      assert (a + b)[1..] == a[1..] + b;
      if a[0] != NEWLINE {
        ScanContinues(open + [a[0]], lines, a[1..], b, maxLine, isText);
      } else {
        ScanContinues([], lines + [open], a[1..], b, maxLine, isText);
      }
    }
  }

  function Prepend(lines: seq<Line>, s: Scan): Scan {
    if s.Failed? then s else s.(lines := lines + s.lines)
  }

  /** Lines already found do not influence the rest of the scan. */
  lemma {:induction false} ScanIgnoresLines(open: seq<Byte>, done: seq<Line>, lines: seq<Line>, input: seq<Byte>,
                                            maxLine: nat, isText: Line -> bool)
    ensures ScanFrom(open, done + lines, input, maxLine, isText) ==
            Prepend(done, ScanFrom(open, lines, input, maxLine, isText))
    decreases |input|
  {
    if input != [] {
      if input[0] != NEWLINE {
        ScanIgnoresLines(open + [input[0]], done, lines, input[1..], maxLine, isText);
      } else {
        assert done + lines + [open] == done + (lines + [open]);
        ScanIgnoresLines([], done, lines + [open], input[1..], maxLine, isText);
      }
    }
  }

  /** An unfinished line that a scan can leave behind. */
  ghost predicate Unfinished(open: seq<Byte>, maxLine: nat) {
    NEWLINE !in open && |open| <= maxLine + 1
  }

  lemma {:induction false} ScanLeavesUnfinished(open: seq<Byte>, lines: seq<Line>, input: seq<Byte>, maxLine: nat,
                                                isText: Line -> bool)
    requires Unfinished(open, maxLine)
    ensures var s := ScanFrom(open, lines, input, maxLine, isText); s.Lines? ==> Unfinished(s.rest, maxLine)
    decreases |input|
  {
    if input != [] && |open| <= maxLine {
      if input[0] != NEWLINE {
        ScanLeavesUnfinished(open + [input[0]], lines, input[1..], maxLine, isText);
      } else {
        ScanLeavesUnfinished([], lines + [open], input[1..], maxLine, isText);
      }
    }
  }

  /** Scanning an unfinished line again from its first byte gives back the same unfinished line. */
  lemma {:induction false} RescanOpen(open: seq<Byte>, tail: seq<Byte>, maxLine: nat, isText: Line -> bool)
    requires Unfinished(open + tail, maxLine)
    ensures ScanFrom(open, [], tail, maxLine, isText) == Lines([], open + tail)
    decreases |tail|
  {
    if tail == [] {
      assert open + tail == open;
    } else {
      assert tail[0] == (open + tail)[|open|];
      assert open + [tail[0]] + tail[1..] == open + tail;
      RescanOpen(open + [tail[0]], tail[1..], maxLine, isText);
    }
  }

  lemma RescanContinues(rest: seq<Byte>, lines: seq<Line>, chunk: seq<Byte>, maxLine: nat, isText: Line -> bool)
    requires Unfinished(rest, maxLine)
    ensures Prepend(lines, ScanAll(rest + chunk, maxLine, isText)) == ScanFrom(rest, lines, chunk, maxLine, isText)
  {
    assert [] + rest == rest;
    RescanOpen([], rest, maxLine, isText);
    ScanContinues([], [], rest, chunk, maxLine, isText);
    assert lines + [] == lines;
    ScanIgnoresLines(rest, lines, [], chunk, maxLine, isText);
  }

  // ---------------------------------------------------------------- chunking does not matter

  function Concat(chunks: seq<seq<Byte>>): seq<Byte> {
    if chunks == [] then [] else chunks[0] + Concat(chunks[1..])
  }

  lemma {:induction false} FeedIsScan(rest: seq<Byte>, lines: seq<Line>, chunks: seq<seq<Byte>>, maxLine: nat,
                                      maxBuffer: nat, isText: Line -> bool)
    requires Unfinished(rest, maxLine)
    ensures var fed := FeedAll(rest, lines, chunks, maxLine, maxBuffer, isText);
            fed != Failed(BufferTooLong) ==>
            fed == ScanFrom(rest, lines, Concat(chunks), maxLine, isText)
    decreases |chunks|
  {
    if chunks != [] && |rest| + |chunks[0]| <= maxBuffer {
      RescanContinues(rest, lines, chunks[0], maxLine, isText);
      ScanContinues(rest, lines, chunks[0], Concat(chunks[1..]), maxLine, isText);
      ScanLeavesUnfinished(rest, lines, chunks[0], maxLine, isText);
      var found := ScanAll(rest + chunks[0], maxLine, isText);
      if found.Lines? {
        FeedIsScan(found.rest, lines + found.lines, chunks[1..], maxLine, maxBuffer, isText);
      }
    }
  }

  lemma {:induction false} ScanNeverBlamesBuffer(open: seq<Byte>, lines: seq<Line>, input: seq<Byte>, maxLine: nat,
                                                 isText: Line -> bool)
    ensures ScanFrom(open, lines, input, maxLine, isText) != Failed(BufferTooLong)
    decreases |input|
  {
    if input != [] && |open| <= maxLine {
      if input[0] != NEWLINE {
        ScanNeverBlamesBuffer(open + [input[0]], lines, input[1..], maxLine, isText);
      } else if isText(open) {
        ScanNeverBlamesBuffer([], lines + [open], input[1..], maxLine, isText);
      }
    }
  }

  /** With room for a chunk beside any unfinished line, the buffer limit never strikes. */
  lemma {:induction false} RoomyBufferNeverStrikes(rest: seq<Byte>, lines: seq<Line>, chunks: seq<seq<Byte>>,
                                                   maxLine: nat, maxBuffer: nat, isText: Line -> bool)
    requires Unfinished(rest, maxLine)
    requires forall i :: 0 <= i < |chunks| ==> maxLine + 1 + |chunks[i]| <= maxBuffer
    ensures FeedAll(rest, lines, chunks, maxLine, maxBuffer, isText) != Failed(BufferTooLong)
    decreases |chunks|
  {
    if chunks != [] {
      var found := ScanAll(rest + chunks[0], maxLine, isText);
      ScanNeverBlamesBuffer([], [], rest + chunks[0], maxLine, isText);
      ScanLeavesUnfinished([], [], rest + chunks[0], maxLine, isText);
      if found.Lines? {
        RoomyBufferNeverStrikes(found.rest, lines + found.lines, chunks[1..], maxLine, maxBuffer, isText);
      }
    }
  }

  // ---------------------------------------------------------------- when the buffer limit strikes

  /** What the chunks before chunk `i` leave unfinished has no room for chunk `i` beside it. */
  predicate Overflows(rest: seq<Byte>, chunks: seq<seq<Byte>>, i: nat, maxLine: nat, maxBuffer: nat,
                      isText: Line -> bool)
    requires i < |chunks|
  {
    var s := ScanFrom(rest, [], Concat(chunks[..i]), maxLine, isText);
    s.Lines? && |s.rest| + |chunks[i]| > maxBuffer
  }

  /** Behind the first chunk the same chunks overflow, from what that chunk leaves unfinished. */
  lemma OverflowsBehind(rest: seq<Byte>, chunks: seq<seq<Byte>>, i: nat, maxLine: nat, maxBuffer: nat,
                        isText: Line -> bool)
    requires Unfinished(rest, maxLine) && 0 < i < |chunks|
    ensures var found := ScanAll(rest + chunks[0], maxLine, isText);
            Overflows(rest, chunks, i, maxLine, maxBuffer, isText) <==>
            found.Lines? && Overflows(found.rest, chunks[1..], i - 1, maxLine, maxBuffer, isText)
  {
    var before := chunks[..i];
    assert before[0] == chunks[0] && before[1..] == chunks[1..][..i - 1];
    RescanContinues(rest, [], chunks[0], maxLine, isText);
    ScanContinues(rest, [], chunks[0], Concat(before[1..]), maxLine, isText);
    var found := ScanAll(rest + chunks[0], maxLine, isText);
    if found.Lines? {
      assert [] + found.lines == found.lines && found.lines + [] == found.lines;
      ScanIgnoresLines(found.rest, found.lines, [], Concat(before[1..]), maxLine, isText);
    }
  }

  /** Feeding fails on the buffer limit if and only if some chunk overflows it. */
  lemma {:induction false} BufferStrikesIff(rest: seq<Byte>, lines: seq<Line>, chunks: seq<seq<Byte>>, maxLine: nat,
                                            maxBuffer: nat, isText: Line -> bool)
    requires Unfinished(rest, maxLine)
    ensures FeedAll(rest, lines, chunks, maxLine, maxBuffer, isText) == Failed(BufferTooLong) <==>
            exists i :: 0 <= i < |chunks| && Overflows(rest, chunks, i, maxLine, maxBuffer, isText)
    decreases |chunks|
  {
    if chunks != [] {
      assert chunks[..0] == [];
      assert Overflows(rest, chunks, 0, maxLine, maxBuffer, isText) <==> |rest| + |chunks[0]| > maxBuffer;
      var found, tail := ScanAll(rest + chunks[0], maxLine, isText), chunks[1..];
      forall i | 0 < i < |chunks|
        ensures Overflows(rest, chunks, i, maxLine, maxBuffer, isText) <==>
                found.Lines? && Overflows(found.rest, tail, i - 1, maxLine, maxBuffer, isText)
      {
        OverflowsBehind(rest, chunks, i, maxLine, maxBuffer, isText);
      }
      ScanNeverBlamesBuffer([], [], rest + chunks[0], maxLine, isText);
      if found.Lines? {
        ScanLeavesUnfinished([], [], rest + chunks[0], maxLine, isText);
        BufferStrikesIff(found.rest, lines + found.lines, tail, maxLine, maxBuffer, isText);
        if j :| 0 <= j < |tail| && Overflows(found.rest, tail, j, maxLine, maxBuffer, isText) {
          assert Overflows(rest, chunks, j + 1, maxLine, maxBuffer, isText);
        }
      }
    }
  }

  /**
   However a stream is cut into chunks, feeding them gives what one scan of the whole stream gives -
   the same lines and the same leftover, or the same error - if and only if no chunk overflows the buffer.
   */
  lemma ChunkingDoesNotMatter(chunks: seq<seq<Byte>>, maxLine: nat, maxBuffer: nat, isText: Line -> bool)
    ensures FeedAll([], [], chunks, maxLine, maxBuffer, isText) == ScanAll(Concat(chunks), maxLine, isText) <==>
            forall i :: 0 <= i < |chunks| ==> !Overflows([], chunks, i, maxLine, maxBuffer, isText)
    ensures (forall i :: 0 <= i < |chunks| ==> maxLine + 1 + |chunks[i]| <= maxBuffer) ==>
            FeedAll([], [], chunks, maxLine, maxBuffer, isText) == ScanAll(Concat(chunks), maxLine, isText)
  {
    FeedIsScan([], [], chunks, maxLine, maxBuffer, isText);
    ScanNeverBlamesBuffer([], [], Concat(chunks), maxLine, isText);
    BufferStrikesIff([], [], chunks, maxLine, maxBuffer, isText);
    if forall i :: 0 <= i < |chunks| ==> maxLine + 1 + |chunks[i]| <= maxBuffer {
      RoomyBufferNeverStrikes([], [], chunks, maxLine, maxBuffer, isText);
    }
  }

  /** One stream, one limit, two chunkings: `x`, newline, `x` passes cut behind the newline and fails cut before it. */
  lemma ChunkingCanMatter(x: Byte, maxLine: nat, isText: Line -> bool)
    requires x != NEWLINE && maxLine > 0 && isText([x])
    ensures var behind, before := [[x, NEWLINE], [x]], [[x], [NEWLINE, x]];
            && Concat(behind) == Concat(before) == [x, NEWLINE, x]
            && FeedAll([], [], behind, maxLine, 2, isText) == Lines([[x]], [x])
            && FeedAll([], [], before, maxLine, 2, isText) == Failed(BufferTooLong)
  {
    var behind, before := [[x, NEWLINE], [x]], [[x], [NEWLINE, x]];
    assert behind[1..] == [[x]] && [[x]][1..] == [] && before[1..] == [[NEWLINE, x]] && [[NEWLINE, x]][1..] == [];
    assert Concat([]) == [] && Concat([[x]]) == [x] && Concat([[NEWLINE, x]]) == [NEWLINE, x];
    ScanOne(x, maxLine, isText);
    assert [] + [x, NEWLINE] == [x, NEWLINE] && [] + [x] == [x];
    var one: seq<Line> := [[x]];
    var none: seq<Line> := [];
    assert none + one == one && one + none == one && none + none == none;
    assert FeedAll([], one, [[x]], maxLine, 2, isText) == FeedAll([x], one + none, [], maxLine, 2, isText);
    assert FeedAll([], none, behind, maxLine, 2, isText) == FeedAll([], none + one, behind[1..], maxLine, 2, isText);
    assert FeedAll([], none, before, maxLine, 2, isText) == FeedAll([x], none + none, before[1..], maxLine, 2, isText);
  }

  lemma ScanOne(x: Byte, maxLine: nat, isText: Line -> bool)
    requires x != NEWLINE && maxLine > 0 && isText([x])
    ensures ScanAll([x], maxLine, isText) == Lines([], [x])
    ensures ScanAll([x, NEWLINE], maxLine, isText) == Lines([[x]], [])
  {
    assert [] + [x] == [x] && [x][1..] == [] && [x, NEWLINE][1..] == [NEWLINE] && [NEWLINE][1..] == [];
    assert ScanFrom([x], [], [], maxLine, isText) == Lines([], [x]);
    assert ScanFrom([x], [], [NEWLINE], maxLine, isText) == ScanFrom([], [[x]], [], maxLine, isText);
  }

  // ---------------------------------------------------------------- what a scan returns

  /** The lines, each followed by its newline. */
  function Unlines(lines: seq<Line>): seq<Byte> {
    if lines == [] then [] else Unlines(lines[..|lines| - 1]) + lines[|lines| - 1] + [NEWLINE]
  }

  ghost predicate ProperLine(line: Line, maxLine: nat, isText: Line -> bool) {
    NEWLINE !in line && |line| <= maxLine && isText(line)
  }

  /** `lines` and `rest` are the split of `input` at its newlines, and every piece is acceptable. */
  ghost predicate IsSplit(input: seq<Byte>, lines: seq<Line>, rest: seq<Byte>, maxLine: nat, isText: Line -> bool) {
    && Unlines(lines) + rest == input
    && (forall i :: 0 <= i < |lines| ==> ProperLine(lines[i], maxLine, isText))
    && Unfinished(rest, maxLine)
  }

  /** No byte is lost or repeated: lines and leftover are the stream, split at its newlines. */
  lemma {:induction false} ScanSplits(open: seq<Byte>, lines: seq<Line>, input: seq<Byte>, maxLine: nat,
                                      isText: Line -> bool)
    requires Unfinished(open, maxLine)
    requires forall i :: 0 <= i < |lines| ==> ProperLine(lines[i], maxLine, isText)
    ensures var s := ScanFrom(open, lines, input, maxLine, isText);
            s.Lines? ==> IsSplit(Unlines(lines) + open + input, s.lines, s.rest, maxLine, isText)
    decreases |input|
  {
    if input == [] {
      assert Unlines(lines) + open + input == Unlines(lines) + open;
    } else if |open| <= maxLine {
      if input[0] != NEWLINE {
        ScanSplits(open + [input[0]], lines, input[1..], maxLine, isText);
        assert Unlines(lines) + (open + [input[0]]) + input[1..] == Unlines(lines) + open + input;
      } else if isText(open) {
        var lines' := lines + [open];
        assert lines'[..|lines|] == lines;
        ScanSplits([], lines', input[1..], maxLine, isText);
        assert Unlines(lines') + [] + input[1..] == Unlines(lines) + open + input;
      }
    }
  }

  lemma {:induction false} ScanOneLine(open: seq<Byte>, tail: seq<Byte>, lines: seq<Line>, input: seq<Byte>,
                                       maxLine: nat, isText: Line -> bool)
    requires ProperLine(open + tail, maxLine, isText)
    ensures ScanFrom(open, lines, tail + [NEWLINE] + input, maxLine, isText) ==
            ScanFrom([], lines + [open + tail], input, maxLine, isText)
    decreases |tail|
  {
    var whole := tail + [NEWLINE] + input;
    if tail == [] {
      assert open + tail == open;
      assert whole[1..] == input;
    } else {
      assert tail[0] == (open + tail)[|open|];
      assert open + [tail[0]] + tail[1..] == open + tail;
      assert whole[1..] == tail[1..] + [NEWLINE] + input;
      ScanOneLine(open + [tail[0]], tail[1..], lines, input, maxLine, isText);
    }
  }

  lemma {:induction false} SplitScans(lines: seq<Line>, input: seq<Byte>, maxLine: nat, isText: Line -> bool)
    requires forall i :: 0 <= i < |lines| ==> ProperLine(lines[i], maxLine, isText)
    ensures ScanAll(Unlines(lines) + input, maxLine, isText) == ScanFrom([], lines, input, maxLine, isText)
    decreases |lines|
  {
    if lines == [] {
      assert Unlines(lines) + input == input;
    } else {
      var init, last := lines[..|lines| - 1], lines[|lines| - 1];
      var input' := last + [NEWLINE] + input;
      assert Unlines(lines) + input == Unlines(init) + input';
      SplitScans(init, input', maxLine, isText);
      assert [] + last == last;
      ScanOneLine([], last, init, input, maxLine, isText);
      assert init + [last] == lines;
    }
  }

  /**
   The scan of a stream succeeds exactly when the stream splits at its newlines into acceptable lines
   and an acceptable leftover, and then returns that split.
   */
  lemma ScanIsTheSplit(input: seq<Byte>, lines: seq<Line>, rest: seq<Byte>, maxLine: nat, isText: Line -> bool)
    ensures ScanAll(input, maxLine, isText) == Lines(lines, rest) <==> IsSplit(input, lines, rest, maxLine, isText)
  {
    assert Unlines([]) + [] + input == input;
    ScanSplits([], [], input, maxLine, isText);
    if IsSplit(input, lines, rest, maxLine, isText) {
      SplitScans(lines, rest, maxLine, isText);
      RescanContinues([], lines, rest, maxLine, isText);
      assert [] + rest == rest;
      RescanOpen([], rest, maxLine, isText);
      assert lines + [] == lines;
    }
  }
}
