/** The chat page: a transcript that opens with a greeting, a query field, and
    the submit handler that sends the question, streams the reply into a new
    assistant message, and fills an empty reply with an apology when anything
    fails. */
module Page {
  import opened Text
  import opened Records
  import opened Transcript
  import opened Network
  import opened Reader

  const Greeting: string :=
    "Hi there \U{1F44B} - this is Andy the agent. What would you like to learn about me?"

  const ErrorText: string :=
    "Sorry, there was an error processing your request. Please try again."

  /** `handleError` on the last message: an assistant message with empty content
      gets the apology; any other message keeps its value. */
  function ErrorFilled(e: Entry): Entry {
    if e.role == Assistant && e.content == "" then Entry(Assistant, ErrorText) else e
  }

  /** The assistant message a readable body leaves: the whole reply when the
      stream ends, the part delivered so far (or the apology, if nothing was)
      when a read fails. */
  function BodyReply(json: Parser, body: Body): Entry {
    match body.end
    case Done => Entry(Assistant, Answer(json, body.chunks))
    case ReadFails => ErrorFilled(Entry(Assistant, AnswerWithoutTail(json, body.chunks)))
  }

  /** The assistant message a response with a status in 200-299 leaves: the
      apology when there is no body to read. */
  function OkReply(json: Parser, body: Option<Body>): Entry {
    match body
    case None => Entry(Assistant, ErrorText)
    case Some(b) => BodyReply(json, b)
  }

  /** What a submission adds to the transcript after the question. */
  function Reply(json: Parser, response: Response): seq<Entry> {
    match response
    case FetchFails => []
    case Http(status, body) => if IsOk(status) then [OkReply(json, body)] else []
  }

  /** The apology replaces exactly the empty assistant message, and applying it
      twice is applying it once. */
  lemma ErrorFilledChanges(e: Entry)
    ensures ErrorFilled(e) != e <==> e.role == Assistant && e.content == ""
    ensures ErrorFilled(ErrorFilled(e)) == ErrorFilled(e)
    ensures ErrorFilled(e).role == e.role
  {
    assert |ErrorText| == 68;
  }

  /** A submission adds at most one message after the question, and it is an
      assistant message; it adds one exactly when the status is in 200-299. A
      reply whose read fails or that has no body is never left empty. */
  lemma ReplyShape(json: Parser, response: Response)
    ensures |Reply(json, response)| <= 1
    ensures |Reply(json, response)| == 1 <==> response.Http? && IsOk(response.status)
    ensures forall e :: e in Reply(json, response) ==> e.role == Assistant
    ensures response.Http? && IsOk(response.status)
              && (response.body.None? || response.body.value.end == ReadFails)
            ==> Reply(json, response)[0].content != ""
  {
    assert |ErrorText| == 68;
  }

  /** The page's state: the query field, the transcript and two flags. */
  class Home {
    const json: Parser
    var query: string
    var messages: seq<Message>
    var isLoading: bool
    var isStreaming: bool

    /** There is always a last message (the greeting to begin with), and no
        message object is listed twice. */
    ghost predicate Valid()
      reads this
    {
      |messages| > 0 && Distinct(messages)
    }

    constructor (json: Parser)
      ensures this.json == json && Valid()
      ensures Snapshot(messages) == [Entry(Assistant, Greeting)]
      ensures query == "" && !isLoading && !isStreaming
    {
      this.json := json;
      var greeting := new Message(Assistant, Greeting);
      query, messages, isLoading, isStreaming := "", [greeting], false, false;
    }

    /** `handleError`: fills the last message when it is an empty assistant
        message, leaves every other message as it is, and clears the loading flag. */
    method HandleError()
      requires Valid()
      modifies this, messages[|messages| - 1]
      ensures Valid() && messages == old(messages)
      ensures Entry(Last(messages).role, Last(messages).content)
           == ErrorFilled(old(Entry(Last(messages).role, Last(messages).content)))
      ensures Snapshot(messages) == DropLast(old(Snapshot(messages))) + [ErrorFilled(Last(old(Snapshot(messages))))]
      ensures !isLoading && query == old(query) && isStreaming == old(isStreaming)
    {
      SnapshotLast(messages);
      ghost var front := Snapshot(DropLast(messages));
      var lastMessage := messages[|messages| - 1];
      if lastMessage.role == Assistant && lastMessage.content == "" {
        lastMessage.content := ErrorText;
      }
      isLoading := false;
      assert lastMessage !in DropLast(messages);
      assert Snapshot(DropLast(messages)) == front;
      SnapshotLast(messages);
    }

    /** The read loop and the tail pass of `handleSubmit`, writing into the empty
        assistant message that ends the transcript; a failed read goes to
        `handleError`. */
    method ReadBody(body: Body)
      requires Valid() && Last(messages).role == Assistant && Last(messages).content == ""
      modifies this, messages[|messages| - 1]
      ensures Valid() && messages == old(messages)
      ensures Entry(Last(messages).role, Last(messages).content) == BodyReply(json, body)
      ensures query == old(query) && isStreaming == old(isStreaming)
    {
      var reader := new StreamReader(json);
      reader.ReadAll(body.chunks, messages);
      match body.end
      case ReadFails =>
        HandleError();
      case Done =>
        reader.Finish(Concat(body.chunks), messages);
    }

    /** A response with a status in 200-299: an empty assistant message is
        appended and the body read into it; a missing body goes to `handleError`. */
    method RespondOk(body: Option<Body>)
      requires Valid()
      modifies this
      ensures Valid() && |messages| == |old(messages)| + 1 && messages[..|old(messages)|] == old(messages)
      ensures Snapshot(messages) == old(Snapshot(messages)) + [OkReply(json, body)]
      ensures query == old(query) && isStreaming == old(isStreaming)
    {
      ghost var before, previous := Snapshot(messages), messages;
      var assistantMessage := new Message(Assistant, "");
      DistinctSnoc(messages, assistantMessage);
      messages := messages + [assistantMessage];
      match body {
        case None => HandleError();
        case Some(b) => ReadBody(b);
      }
      assert Snapshot(previous) == before;
      SnapshotLast(messages);
    }

    /** The `try` block of `handleSubmit` with its `catch`, once the question is
        the last message: a rejected fetch or a status outside 200-299 goes to
        `handleError`, which finds the question last and leaves it as it is. */
    method Respond(response: Response)
      requires Valid() && Last(messages).role == User
      modifies this, messages[|messages| - 1]
      ensures Valid() && |messages| >= |old(messages)| && messages[..|old(messages)|] == old(messages)
      ensures Snapshot(messages) == old(Snapshot(messages)) + Reply(json, response)
      ensures query == old(query) && isStreaming == old(isStreaming)
    {
      if response.Http? && IsOk(response.status) {
        RespondOk(response.body);
      } else {
        SnapshotLast(messages);
        HandleError();
        DropLastLast(Snapshot(messages));
        assert messages[..|messages|] == messages;
        AppendEmpty(Snapshot(messages));
      }
    }

    /** `handleSubmit` past its guard, up to the request: the question becomes a
        new user message at the end of the transcript, the query is cleared, both
        flags are raised, and the request carries the question and the transcript
        as it stood plus the question. */
    method Ask() returns (request: Request)
      requires Valid()
      modifies this
      ensures Valid() && Last(messages).role == User && fresh(Last(messages))
      ensures |messages| == |old(messages)| + 1 && messages[..|old(messages)|] == old(messages)
      ensures request == Request(old(query), old(Snapshot(messages)) + [Entry(User, old(query))])
      ensures Snapshot(messages) == request.messages
      ensures query == "" && isLoading && isStreaming
    {
      var q := query;
      var userMessage := new Message(User, q);
      request := Request(q, Snapshot(messages) + [Entry(User, q)]);
      DistinctSnoc(messages, userMessage);
      isStreaming, messages, query, isLoading := true, messages + [userMessage], "", true;
      SnapshotLast(messages);
    }

    /** `handleSubmit` past its guard: the question is asked, the response
        handled, and both flags cleared at the end. */
    method Submit(response: Response) returns (request: Request)
      requires Valid()
      modifies this
      ensures Valid()
      ensures request == Request(old(query), old(Snapshot(messages)) + [Entry(User, old(query))])
      ensures |messages| >= |old(messages)| && messages[..|old(messages)|] == old(messages)
      ensures Snapshot(messages) == old(Snapshot(messages)) + [Entry(User, old(query))] + Reply(json, response)
      ensures query == "" && !isLoading && !isStreaming
    {
      ghost var start := messages;
      request := Ask();
      ghost var asked := messages;
      Respond(response);
      assert messages[..|start|] == asked[..|start|];
      isLoading, isStreaming := false, false;
    }

    /** `handleSubmit`. A blank query, or a submission while one is in flight,
        changes nothing; otherwise the question is sent and the reply streamed in. */
    method HandleSubmit(response: Response) returns (request: Option<Request>)
      requires Valid()
      modifies this
      ensures Valid()
      ensures IsBlank(old(query)) || old(isLoading) ==> request == None && unchanged(this)
      ensures !(IsBlank(old(query)) || old(isLoading)) ==>
        && request == Some(Request(old(query), old(Snapshot(messages)) + [Entry(User, old(query))]))
        && |messages| >= |old(messages)| && messages[..|old(messages)|] == old(messages)
        && Snapshot(messages) == old(Snapshot(messages)) + [Entry(User, old(query))] + Reply(json, response)
        && query == "" && !isLoading && !isStreaming
    {
      if IsBlank(query) || isLoading {
        return None;
      }
      var sent := Submit(response);
      request := Some(sent);
    }
  }
}
