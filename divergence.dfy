/** How the page's submit handler and the `useMessages` hook differ on the same
    response. The page keeps the question whatever happens; the hook takes it
    back on failure. The page handles the text left after the last newline when
    the stream ends; the hook does not. */
module Divergence {
  import opened Text
  import opened Records
  import opened Transcript
  import opened Network
  import opened Reader
  import opened Page
  import opened UseMessages

  /** When the body ends with a newline (or is empty) and the stream runs to
      its end, both add the question and the same reply. */
  lemma SameWhenTerminated(json: Parser, question: string, status: int, chunks: seq<string>)
    requires IsOk(status)
    requires var text := Concat(chunks); text == [] || text[|text| - 1] == '\n'
    ensures var response := Http(status, Some(Body(chunks, Done)));
      HookAdded(json, question, response) == [Entry(User, question)] + Reply(json, response)
  {
    TerminatedBodyLosesNothing(json, chunks);
  }

  /** For every completed body with a status in 200-299, the page's reply is
      the hook's followed by what the text after the last newline delivers:
      that final segment is all the hook loses. */
  lemma TailLost(json: Parser, question: string, status: int, chunks: seq<string>)
    requires IsOk(status)
    ensures var response := Http(status, Some(Body(chunks, Done)));
      && |Reply(json, response)| == 1 && |HookAdded(json, question, response)| == 2
      && Reply(json, response)[0].content
         == HookAdded(json, question, response)[1].content
            + Concat(Emitted(Delta(json, Last(SplitNL(Concat(chunks))))))
  {
    TailDifference(json, chunks);
  }

  /** A record that is the last line of the body with no newline after it
      reaches the page's reply but never the hook's. */
  lemma UnterminatedRecordLost(json: Parser, question: string, line: string, text: string)
    requires '\n' !in line && Delta(json, line) == Some(text)
    ensures var response := Http(200, Some(Body([line], Done)));
      && Reply(json, response) == [Entry(Assistant, text)]
      && HookAdded(json, question, response) == [Entry(User, question), Entry(Assistant, "")]
  {
    UnterminatedRecord(json, line, text);
  }

  /** A rejected fetch or a status outside 200-299 (429 among them) adds no
      reply on either side; the page keeps the question, the hook removes it. */
  lemma FailureKeepsQuestionOnPageOnly(json: Parser, question: string, response: Response)
    requires response.FetchFails? || !IsOk(response.status)
    ensures Reply(json, response) == []
    ensures HookAdded(json, question, response) == []
    ensures OutcomeOf(response) != Completed
  {
  }

  /** With no body, or a read that fails, the hook keeps the assistant message
      but not the question before it, and leaves it empty when nothing was read;
      the page shows the same message with the apology filled in. */
  lemma OrphanReply(json: Parser, question: string, response: Response)
    requires response.Http? && IsOk(response.status)
    requires response.body.None? || response.body.value.end == ReadFails
    ensures var added := HookAdded(json, question, response);
      && |added| == 1 && added[0].role == Assistant
      && Reply(json, response) == [ErrorFilled(added[0])]
      && OutcomeOf(response) == Failed
  {
  }
}
