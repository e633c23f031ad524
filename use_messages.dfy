/** The `useMessages` hook: a transcript that starts empty, a loading flag, and
    `sendMessage`, which appends the question, posts it, streams the reply into
    a new assistant message, and on any failure takes the question back out by
    object identity. */
module UseMessages {
  import opened Text
  import opened Records
  import opened Transcript
  import opened Network
  import opened Reader

  /** The status the service answers with when a caller is over its quota. */
  const TooManyRequests: int := 429

  /** How a call of `sendMessage` ends: the rate-limit branch that returns
      early, the `catch` block, or the read loop running to `done`. */
  datatype Outcome = RateLimited | Failed | Completed

  /** Which way a call ends for a given response: a rejected fetch, a status
      outside 200-299, a missing body and a failed read all reach the `catch`
      block; 429 is tested before anything else. */
  function OutcomeOf(response: Response): Outcome {
    match response
    case FetchFails => Failed
    case Http(status, body) =>
      if status == TooManyRequests then RateLimited
      else if !IsOk(status) then Failed
      else match body
        case None => Failed
        case Some(b) => if b.end == Done then Completed else Failed
  }

  /** What the transcript gains after the placeholder is appended: with no body
      or a failed read the question is filtered out and the placeholder stays,
      empty or with the part read so far; a stream that ends keeps both, and the
      reply holds what the complete lines delivered. */
  function BodyAdded(json: Parser, message: string, body: Option<Body>): seq<Entry> {
    match body
    case None => [Entry(Assistant, "")]
    case Some(b) =>
      match b.end
      case Done => [Entry(User, message), Entry(Assistant, AnswerWithoutTail(json, b.chunks))]
      case ReadFails => [Entry(Assistant, AnswerWithoutTail(json, b.chunks))]
  }

  /** What one call of `sendMessage` adds after the messages the hook held. */
  function HookAdded(json: Parser, message: string, response: Response): seq<Entry> {
    match response
    case FetchFails => []
    case Http(status, body) =>
      if status == TooManyRequests || !IsOk(status) then [] else BodyAdded(json, message, body)
  }

  /** The hook's state. */
  class MessagesHook {
    const json: Parser
    var messages: seq<Message>
    var isLoading: bool

    /** No message object is listed twice. */
    ghost predicate Valid()
      reads this
    {
      Distinct(messages)
    }

    constructor (json: Parser)
      ensures this.json == json && Valid()
      ensures messages == [] && !isLoading
    {
      this.json := json;
      messages, isLoading := [], false;
    }

    /** `setIsLoading(true)`, then the question appended as a new user message;
        the request carries the question and the transcript before it plus the
        question. */
    method Ask(message: string) returns (userMessage: Message, request: Request)
      requires Valid()
      modifies this
      ensures Valid() && isLoading && fresh(userMessage)
      ensures messages == old(messages) + [userMessage]
      ensures userMessage.role == User && userMessage.content == message
      ensures request == Request(message, old(Snapshot(messages)) + [Entry(User, message)])
    {
      isLoading := true;
      userMessage := new Message(User, message);
      DistinctSnoc(messages, userMessage);
      request := Request(message, Snapshot(messages) + [Entry(User, message)]);
      messages := messages + [userMessage];
    }

    /** `setMessages(prev => prev.filter(msg => msg !== userMessage))`: exactly
        that object leaves the transcript, wherever it stands. */
    method Rollback(userMessage: Message, ghost front: seq<Message>, ghost back: seq<Message>)
      requires Valid() && messages == front + [userMessage] + back
      modifies this
      ensures Valid() && messages == front + back && isLoading == old(isLoading)
    {
      DistinctRemove(front, userMessage, back);
      RollbackRemovesOnly(front, userMessage, back);
      messages := Without(messages, userMessage);
    }

    /** From the appended placeholder on: no body, or a read that fails, reaches
        the `catch` block and its rollback; a stream that ends leaves the reply
        as the complete lines delivered it. */
    method Stream(ghost front: seq<Message>, userMessage: Message, body: Option<Body>) returns (outcome: Outcome)
      requires Valid() && messages == front + [userMessage] && userMessage.role == User
      modifies this
      ensures Valid() && isLoading == old(isLoading)
      ensures outcome == if body.Some? && body.value.end == Done then Completed else Failed
      ensures |messages| >= |front| && messages[..|front|] == front
      ensures Snapshot(messages) == Snapshot(front) + BodyAdded(json, userMessage.content, body)
    {
      var assistantMessage := new Message(Assistant, "");
      DistinctSnoc(messages, assistantMessage);
      messages := messages + [assistantMessage];
      assert messages == front + [userMessage] + [assistantMessage];
      match body {
        case None =>
          Rollback(userMessage, front, [assistantMessage]);
          outcome := Failed;
          SnapshotSnoc(front, assistantMessage);
        case Some(b) =>
          var reader := new StreamReader(json);
          reader.ReadAll(b.chunks, messages);
          if b.end == Done {
            outcome := Completed;
            SnapshotSnoc(front, userMessage);
            SnapshotSnoc(front + [userMessage], assistantMessage);
          } else {
            Rollback(userMessage, front, [assistantMessage]);
            outcome := Failed;
            SnapshotSnoc(front, assistantMessage);
          }
      }
    }

    /** The `try` block of `sendMessage` with its `catch`, once the question is
        the last message: a 429, a rejected fetch or a status outside 200-299
        takes the question back out; otherwise the reply is streamed in. */
    method Respond(ghost front: seq<Message>, userMessage: Message, response: Response) returns (outcome: Outcome)
      requires Valid() && messages == front + [userMessage] && userMessage.role == User
      modifies this
      ensures Valid() && isLoading == old(isLoading)
      ensures outcome == OutcomeOf(response)
      ensures |messages| >= |front| && messages[..|front|] == front
      ensures Snapshot(messages) == Snapshot(front) + HookAdded(json, userMessage.content, response)
    {
      if response.FetchFails? {
        Rollback(userMessage, front, []);
        outcome := Failed;
      } else if response.status == TooManyRequests {
        Rollback(userMessage, front, []);
        outcome := RateLimited;
      } else if !IsOk(response.status) {
        Rollback(userMessage, front, []);
        outcome := Failed;
      } else {
        outcome := Stream(front, userMessage, response.body);
        return;
      }
      AppendEmpty(front);
      AppendEmpty(Snapshot(front));
    }

    /** `sendMessage`. The question is appended and posted, and the response
        handled; the loading flag is cleared at the end whatever happened. */
    method SendMessage(message: string, response: Response) returns (request: Request, outcome: Outcome)
      requires Valid()
      modifies this
      ensures Valid() && !isLoading
      ensures request == Request(message, old(Snapshot(messages)) + [Entry(User, message)])
      ensures outcome == OutcomeOf(response)
      ensures |messages| >= |old(messages)| && messages[..|old(messages)|] == old(messages)
      ensures Snapshot(messages) == old(Snapshot(messages)) + HookAdded(json, message, response)
    {
      ghost var front := messages;
      var userMessage;
      userMessage, request := Ask(message);
      outcome := Respond(front, userMessage, response);
      isLoading := false;
    }
  }
}
