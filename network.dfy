/** The HTTP exchange with the conversation service, reduced to what the
    transcript logic observes. The request is returned to the caller instead of
    being sent; the response is given to the caller instead of being awaited. */
module Network {
  import opened Records
  import opened Transcript

  /** How the body's read loop ends: `reader.read()` resolves with `done`, or it rejects. */
  datatype StreamEnd = Done | ReadFails

  /** A readable body: the chunks `reader.read()` yields, already decoded to text,
      and how the stream ends after the last of them. */
  datatype Body = Body(chunks: seq<string>, end: StreamEnd)

  /** What `await fetch(...)` gives: a rejection, or a response with a status
      and, unless `response.body` is null, a readable body. */
  datatype Response =
    | FetchFails
    | Http(status: int, body: Option<Body>)

  /** `response.ok`. */
  predicate IsOk(status: int) {
    200 <= status <= 299
  }

  /** The parts of `POST /conversation`'s JSON body this model keeps: the
      question and the serialised message list. */
  datatype Request = Request(question: string, messages: seq<Entry>)
}
