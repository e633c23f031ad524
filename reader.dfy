/** The incremental reader of a response body: decoded chunks are appended to a
    buffer, the buffer is split on newlines, the unterminated last segment is kept
    for the next chunk, and every complete line is handled in order. The pure
    functions give the reader's abstract state; StreamReader is the loop the
    handlers run, proved against them. */
module Reader {
  import opened Text
  import opened Records
  import opened Transcript

  /** The reader's state between chunks: the unterminated tail, and the contents
      delivered so far (whose concatenation is `fullContent`). */
  datatype ReaderState = ReaderState(buffer: string, deltas: seq<string>)

  const Start := ReaderState("", [])

  /** One chunk: `buffer += chunk; lines = buffer.split("\n"); buffer = lines.pop() || "";`
      and then every line in `lines` is handled. */
  function Step(parse: Parser, s: ReaderState, chunk: string): ReaderState {
    var segments := SplitNL(s.buffer + chunk);
    ReaderState(Last(segments), s.deltas + Deltas(parse, DropLast(segments)))
  }

  /** Every chunk in turn, until the stream reports `done`. */
  function FeedAll(parse: Parser, s: ReaderState, chunks: seq<string>): ReaderState {
    if chunks == [] then s else Step(parse, FeedAll(parse, s, DropLast(chunks)), Last(chunks))
  }

  /** The end-of-stream pass over the unterminated tail (the `if (buffer.trim())`
      block after the read loop): the contents delivered once the stream is done. */
  function Flush(parse: Parser, s: ReaderState): seq<string> {
    s.deltas + Emitted(Delta(parse, s.buffer))
  }

  /** The state the reader would be in had the whole `text` arrived in one chunk:
      every segment but the last handled, the last one buffered. */
  function AfterText(parse: Parser, text: string): ReaderState {
    var segments := SplitNL(text);
    ReaderState(Last(segments), Deltas(parse, DropLast(segments)))
  }

  /** Feeding one more chunk to the state reached after `text` reaches the state
      after `text + chunk`: the split across the chunk boundary is invisible. */
  lemma StepAfterText(parse: Parser, text: string, chunk: string)
    ensures Step(parse, AfterText(parse, text), chunk) == AfterText(parse, text + chunk)
  {
    var segments := SplitNL(text);
    var tail := SplitNL(Last(segments) + chunk);
    SplitAppend(text, chunk);
    DropLastAppend(DropLast(segments), tail);
    DeltasAppend(parse, DropLast(segments), DropLast(tail));
  }

  /** Feeding a list of chunks is feeding their concatenation. */
  lemma {:induction false} FeedAllAfterText(parse: Parser, text: string, chunks: seq<string>)
    ensures FeedAll(parse, AfterText(parse, text), chunks) == AfterText(parse, text + Concat(chunks))
    decreases |chunks|
  {
    if chunks == [] {
      AppendEmpty(text);
    } else {
      var front := Concat(DropLast(chunks));
      FeedAllAfterText(parse, text, DropLast(chunks));
      StepAfterText(parse, text + front, Last(chunks));
      AppendAssoc(text, front, Last(chunks));
    }
  }

  /** The state after the whole text, reached from the initial state. */
  lemma FeedAllFromStart(parse: Parser, chunks: seq<string>)
    ensures FeedAll(parse, Start, chunks) == AfterText(parse, Concat(chunks))
  {
    assert AfterText(parse, "") == Start;
    FeedAllAfterText(parse, "", chunks);
    AppendEmpty(Concat(chunks));
  }

  /** Chunking independence. However the decoded text is cut into chunks, the
      contents delivered by the time the stream is done are those of every
      newline-separated segment of the whole text, the final unterminated one
      included when the tail is flushed, and left out when it is not. */
  lemma ChunkingIndependent(parse: Parser, chunks: seq<string>)
    ensures Flush(parse, FeedAll(parse, Start, chunks)) == Deltas(parse, SplitNL(Concat(chunks)))
    ensures FeedAll(parse, Start, chunks).deltas == Deltas(parse, DropLast(SplitNL(Concat(chunks))))
  {
    FeedAllFromStart(parse, chunks);
  }

  /** The last segment, handled at end of stream, completes the contents of the
      whole text. */
  lemma FlushAfterText(parse: Parser, text: string)
    ensures Flush(parse, AfterText(parse, text)) == Deltas(parse, SplitNL(text))
  {
  }

  /** The reply once the stream is done and its tail handled: the content of
      every record in the whole decoded text, in order. */
  function Answer(parse: Parser, chunks: seq<string>): string {
    Concat(Deltas(parse, SplitNL(Concat(chunks))))
  }

  /** The reply when the read loop ends and the tail is never handled: the
      final unterminated segment contributes nothing. */
  function AnswerWithoutTail(parse: Parser, chunks: seq<string>): string {
    Concat(Deltas(parse, DropLast(SplitNL(Concat(chunks)))))
  }

  /** The two replies differ by exactly what the final segment delivers. */
  lemma TailDifference(parse: Parser, chunks: seq<string>)
    ensures Answer(parse, chunks)
         == AnswerWithoutTail(parse, chunks) + Concat(Emitted(Delta(parse, Last(SplitNL(Concat(chunks))))))
  {
    var segments := SplitNL(Concat(chunks));
    ConcatAppend(Deltas(parse, DropLast(segments)), Emitted(Delta(parse, Last(segments))));
  }

  /** A body whose text is empty or ends with a newline loses nothing without
      the tail pass: its final segment is empty, hence blank. */
  lemma TerminatedBodyLosesNothing(parse: Parser, chunks: seq<string>)
    requires var text := Concat(chunks); text == [] || text[|text| - 1] == '\n'
    ensures Answer(parse, chunks) == AnswerWithoutTail(parse, chunks)
  {
    var text := Concat(chunks);
    var tail := Last(SplitNL(text));
    LastSegmentIsTail(text);
    assert IsBlank(tail);
    TailDifference(parse, chunks);
    AppendEmpty(AnswerWithoutTail(parse, chunks));
  }

  /** A body that is one record with no newline after it: handled as the tail it
      gives the record's content; without the tail pass it gives nothing. */
  lemma UnterminatedRecord(parse: Parser, line: string, text: string)
    requires '\n' !in line && Delta(parse, line) == Some(text)
    ensures Answer(parse, [line]) == text
    ensures AnswerWithoutTail(parse, [line]) == ""
  {
    assert Concat([line]) == Concat([]) + line;
    assert [] + line == line;
    SplitWhole(line);
    assert DropLast([line]) == [];
    assert Deltas(parse, [line]) == Deltas(parse, []) + [text];
    assert Concat([text]) == Concat([]) + text;
  }

  /** The reader loop of one response, with the transcript it writes into. */
  class StreamReader {
    const parse: Parser
    var buffer: string
    var fullContent: string
    /** The contents accepted so far, in order: one per transcript update. */
    ghost var deltas: seq<string>

    ghost function State(): ReaderState
      reads this
    {
      ReaderState(buffer, deltas)
    }

    /** `fullContent` is everything accepted so far, in order. */
    ghost predicate Valid()
      reads this
    {
      fullContent == Concat(deltas)
    }

    constructor (parse: Parser)
      ensures this.parse == parse && Valid() && State() == Start
    {
      this.parse := parse;
      buffer, fullContent := "", "";
      deltas := [];
    }

    /** One line: skipped when blank; otherwise the prefix is stripped, the rest
        trimmed and parsed, and a truthy `content` is appended to `fullContent`,
        which is then written into the last message. A parse failure is caught
        and the line skipped. */
    method HandleLine(line: string, transcript: seq<Message>)
      requires Valid() && |transcript| > 0
      modifies this`fullContent, this`deltas, transcript[|transcript| - 1]
      ensures Valid()
      ensures deltas == old(deltas) + Emitted(Delta(parse, line))
      ensures Delta(parse, line).None? ==> fullContent == old(fullContent)
      ensures Last(transcript).content
           == if Delta(parse, line).Some? then fullContent else old(Last(transcript).content)
    {
      if !IsBlank(line) {
        var jsonStr := Trim(StripDataPrefix(line));
        match parse(jsonStr)
        case Content(text) =>
          ConcatAppend(deltas, [text]);
          assert Concat([text]) == Concat([]) + text;
          fullContent := fullContent + text;
          deltas := deltas + [text];
          var lastMessage := transcript[|transcript| - 1];
          lastMessage.content := fullContent;
        case _ =>
      }
    }

    /** `for (const line of lines)`: every complete line of a chunk, in order. */
    method HandleLines(lines: seq<string>, transcript: seq<Message>)
      requires Valid() && |transcript| > 0
      modifies this`fullContent, this`deltas, transcript[|transcript| - 1]
      ensures Valid()
      ensures deltas == old(deltas) + Deltas(parse, lines)
      ensures |deltas| == |old(deltas)| ==> fullContent == old(fullContent)
      ensures Last(transcript).content
           == if |deltas| == |old(deltas)| then old(Last(transcript).content) else fullContent
    {
      ghost var before := deltas;
      for i := 0 to |lines|
        invariant Valid()
        invariant deltas == before + Deltas(parse, lines[..i])
        invariant |deltas| == |before| ==> fullContent == old(fullContent)
        invariant |deltas| == |before| ==> Last(transcript).content == old(Last(transcript).content)
        invariant |deltas| != |before| ==> Last(transcript).content == fullContent
      {
        DeltasSnoc(parse, lines[..i], lines[i]);
        TakeSnoc(lines, i);
        AppendAssoc(before, Deltas(parse, lines[..i]), Emitted(Delta(parse, lines[i])));
        HandleLine(lines[i], transcript);
      }
      assert lines[..|lines|] == lines;
    }

    /** One `reader.read()` that yields a chunk: the chunk is appended to the
        buffer, the complete lines are handled, and the unterminated rest is kept. */
    method Feed(chunk: string, transcript: seq<Message>)
      requires Valid() && |transcript| > 0
      modifies this, transcript[|transcript| - 1]
      ensures Valid()
      ensures State() == Step(parse, old(State()), chunk)
      ensures |deltas| >= |old(deltas)|
      ensures |deltas| == |old(deltas)| ==> fullContent == old(fullContent)
      ensures Last(transcript).content
           == if |deltas| == |old(deltas)| then old(Last(transcript).content) else fullContent
    {
      var lines := SplitNL(buffer + chunk);
      buffer := Last(lines);
      HandleLines(DropLast(lines), transcript);
    }

    /** The read loop over every chunk the body yields. */
    method FeedChunks(chunks: seq<string>, transcript: seq<Message>)
      requires Valid() && |transcript| > 0
      modifies this, transcript[|transcript| - 1]
      ensures Valid()
      ensures State() == FeedAll(parse, old(State()), chunks)
      ensures |deltas| == |old(deltas)| ==> fullContent == old(fullContent)
      ensures Last(transcript).content
           == if |deltas| == |old(deltas)| then old(Last(transcript).content) else fullContent
    {
      ghost var start, before := State(), deltas;
      for i := 0 to |chunks|
        invariant Valid()
        invariant State() == FeedAll(parse, start, chunks[..i])
        invariant |deltas| >= |before|
        invariant |deltas| == |before| ==> fullContent == old(fullContent)
        invariant |deltas| == |before| ==> Last(transcript).content == old(Last(transcript).content)
        invariant |deltas| != |before| ==> Last(transcript).content == fullContent
      {
        TakeSnoc(chunks, i);
        assert DropLast(chunks[..i + 1]) == chunks[..i];
        Feed(chunks[i], transcript);
      }
      assert chunks[..|chunks|] == chunks;
    }

    /** The read loop of one response, from a fresh reader writing into an
        empty message: the message then shows everything the complete lines of
        the whole body delivered. */
    method ReadAll(chunks: seq<string>, transcript: seq<Message>)
      requires Valid() && State() == Start && |transcript| > 0 && Last(transcript).content == ""
      modifies this, transcript[|transcript| - 1]
      ensures Valid() && State() == AfterText(parse, Concat(chunks))
      ensures Last(transcript).content == fullContent == AnswerWithoutTail(parse, chunks)
    {
      FeedChunks(chunks, transcript);
      FeedAllFromStart(parse, chunks);
    }

    /** End of stream: the tail left in the buffer is handled like a line, which
        completes the contents of every segment of the text received. */
    method Finish(ghost text: string, transcript: seq<Message>)
      requires Valid() && State() == AfterText(parse, text)
      requires |transcript| > 0 && Last(transcript).content == fullContent
      modifies this, transcript[|transcript| - 1]
      ensures Valid() && Last(transcript).content == fullContent
      ensures deltas == Deltas(parse, SplitNL(text))
    {
      HandleLine(buffer, transcript);
      FlushAfterText(parse, text);
    }
  }
}
