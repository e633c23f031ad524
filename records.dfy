/** What one complete line of the response stream contributes: blank lines are
    skipped, a leading `data: ` is removed, the rest is trimmed and parsed as
    JSON, and a record with a truthy `content` delivers that content. */
module Records {
  import opened Text

  datatype Option<T> = None | Some(value: T)

  /** The outcome of `JSON.parse(jsonStr)` followed by the test `if (parsed.content)`. */
  datatype Parsed =
    | Unparseable            // JSON.parse throws, or reading `.content` of the value throws
    | NoContent              // parsed, but `content` is missing or falsy ("" among them)
    | Content(text: string)  // parsed with a truthy `content`; `text` is what `+=` appends

  /** `JSON.parse` with the `.content` lookup: a foreign function the model does not
      interpret. Every client takes it as a parameter. */
  type Parser = string -> Parsed

  /** The JSON text a line carries: `line.replace(/^data: /, "").trim()`. */
  function Payload(line: string): string {
    Trim(StripDataPrefix(line))
  }

  /** The content a single complete line delivers, if any. */
  function Delta(parse: Parser, line: string): Option<string> {
    if IsBlank(line) then None
    else match parse(Payload(line))
      case Content(text) => Some(text)
      case _ => None
  }

  function Emitted(d: Option<string>): seq<string> {
    match d
    case Some(text) => [text]
    case None => []
  }

  /** The contents delivered by a sequence of complete lines, in line order. */
  function Deltas(parse: Parser, lines: seq<string>): seq<string> {
    if lines == [] then [] else Deltas(parse, DropLast(lines)) + Emitted(Delta(parse, Last(lines)))
  }

  /** Handling two runs of lines one after the other delivers the contents of the
      first run, then those of the second. */
  lemma {:induction false} DeltasAppend(parse: Parser, a: seq<string>, b: seq<string>)
    ensures Deltas(parse, a + b) == Deltas(parse, a) + Deltas(parse, b)
    decreases |b|
  {
    if b == [] {
      assert a + b == a;
    } else {
      assert DropLast(a + b) == a + DropLast(b);
      assert Last(a + b) == Last(b);
      DeltasAppend(parse, a, DropLast(b));
    }
  }

  /** A line that is blank, fails to parse, or parses without a truthy `content`
      delivers nothing and does not stop the lines after it: the result is as if
      the line were not there. */
  lemma {:induction false} SkippedLine(parse: Parser, before: seq<string>, line: string, after: seq<string>)
    requires IsBlank(line) || !parse(Payload(line)).Content?
    ensures Deltas(parse, before + [line] + after) == Deltas(parse, before) + Deltas(parse, after)
  {
    DeltasAppend(parse, before + [line], after);
    DeltasSnoc(parse, before, line);
  }

  /** A line whose payload parses to a truthy `content` delivers exactly that
      content, after everything the earlier lines delivered. */
  lemma {:induction false} AcceptedLine(parse: Parser, before: seq<string>, line: string, after: seq<string>)
    requires !IsBlank(line) && parse(Payload(line)).Content?
    ensures Deltas(parse, before + [line] + after)
         == Deltas(parse, before) + [parse(Payload(line)).text] + Deltas(parse, after)
  {
    DeltasAppend(parse, before + [line], after);
    DeltasSnoc(parse, before, line);
  }

  /** One more line delivers what it delivers after the earlier lines. */
  lemma DeltasSnoc(parse: Parser, lines: seq<string>, line: string)
    ensures Deltas(parse, lines + [line]) == Deltas(parse, lines) + Emitted(Delta(parse, line))
  {
    assert DropLast(lines + [line]) == lines;
  }
}
