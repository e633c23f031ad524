/** The chat transcript: an ordered sequence of message objects. Messages are
    objects because the stream reader writes `content` in place and the rollback
    filters by object identity. */
module Transcript {
  import opened Text

  datatype Role = User | Assistant

  /** The value of a message at one moment: what the UI renders and what a
      request body serialises. */
  datatype Entry = Entry(role: Role, content: string)

  /** `{ role, content }`. The role of a message never changes; its content is
      written in place while a reply streams in. */
  class Message {
    const role: Role
    var content: string

    constructor (role: Role, content: string)
      ensures this.role == role && this.content == content
    {
      this.role := role;
      this.content := content;
    }
  }

  /** The values of a transcript's messages, in order. */
  function Snapshot(t: seq<Message>): (r: seq<Entry>)
    reads t
    ensures |r| == |t|
  {
    if t == [] then [] else Snapshot(DropLast(t)) + [Entry(Last(t).role, Last(t).content)]
  }

  /** The value of a transcript is the value of all but its last message, then
      the value of the last one. */
  lemma SnapshotLast(t: seq<Message>)
    requires |t| > 0
    ensures Snapshot(t) == Snapshot(DropLast(t)) + [Entry(Last(t).role, Last(t).content)]
  {
  }

  /** Appending a message appends its value. */
  lemma SnapshotSnoc(t: seq<Message>, m: Message)
    ensures Snapshot(t + [m]) == Snapshot(t) + [Entry(m.role, m.content)]
  {
    assert DropLast(t + [m]) == t;
  }

  /** No message object appears twice. */
  predicate Distinct(t: seq<Message>) {
    forall i, j :: 0 <= i < j < |t| ==> t[i] != t[j]
  }

  /** Appending a message object the transcript does not hold keeps it free of
      repeated objects, and its last message is then not repeated earlier. */
  lemma DistinctSnoc(t: seq<Message>, m: Message)
    requires Distinct(t) && m !in t
    ensures Distinct(t + [m]) && DropLast(t + [m]) == t && Last(t + [m]) == m
  {
  }

  /** Taking one message object out of a transcript free of repeated objects
      leaves it free of them. */
  lemma DistinctRemove(front: seq<Message>, m: Message, back: seq<Message>)
    requires Distinct(front + [m] + back)
    ensures Distinct(front + back) && m !in front && m !in back
  {
    var t, u := front + [m] + back, front + back;
    forall i, j | 0 <= i < j < |u|
      ensures u[i] != u[j]
    {
      var i', j' := if i < |front| then i else i + 1, if j < |front| then j else j + 1;
      assert u[i] == t[i'] && u[j] == t[j'];
    }
    forall k | 0 <= k < |front|
      ensures front[k] != m
    {
      assert t[k] == front[k] && t[|front|] == m;
    }
    forall k | 0 <= k < |back|
      ensures back[k] != m
    {
      assert t[|front| + 1 + k] == back[k] && t[|front|] == m;
    }
  }

  /** `t.filter(msg => msg !== m)`: every message but the object `m`, in order. */
  function Without(t: seq<Message>, m: Message): seq<Message> {
    if t == [] then []
    else Without(DropLast(t), m) + (if Last(t) == m then [] else [Last(t)])
  }

  lemma {:induction false} WithoutAppend(a: seq<Message>, b: seq<Message>, m: Message)
    ensures Without(a + b, m) == Without(a, m) + Without(b, m)
    decreases |b|
  {
    if b == [] {
      assert a + b == a;
    } else {
      assert DropLast(a + b) == a + DropLast(b);
      WithoutAppend(a, DropLast(b), m);
    }
  }

  /** Filtering out an object the transcript does not hold changes nothing. */
  lemma {:induction false} WithoutAbsent(t: seq<Message>, m: Message)
    requires m !in t
    ensures Without(t, m) == t
    decreases |t|
  {
    if t != [] {
      WithoutAbsent(DropLast(t), m);
    }
  }

  /** The rollback removes exactly the one object it names, wherever it stands,
      and keeps every other message in order, including messages with the same
      role and content. */
  lemma {:induction false} RollbackRemovesOnly(before: seq<Message>, m: Message, after: seq<Message>)
    requires m !in before && m !in after
    ensures Without(before + [m] + after, m) == before + after
  {
    WithoutAppend(before + [m], after, m);
    assert DropLast(before + [m]) == before && Last(before + [m]) == m;
    WithoutAbsent(before, m);
    assert Without(before + [m], m) == before;
    WithoutAbsent(after, m);
  }
}
