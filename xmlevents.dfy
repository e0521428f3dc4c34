/**
 * What an XML tokenizer hands to the archive readers: start-element,
 * end-element and character-data events, delivered chunk by chunk as the
 * file is read.  Each chunk records whether the tokenizer accepted it;
 * after a rejected chunk no further events arrive.
 */
module XmlEvents {

  /** One attribute of a start tag: the key and the value, in document order. */
  datatype Attr = Attr(key: string, value: string)

  datatype Event =
    | StartTag(name: string, attrs: seq<Attr>)
    | EndTag(name: string)
    | Text(text: string)

  /** The outcome of feeding one chunk: accepted, or an error with its description and line. */
  datatype Status = Parsed | Failed(reason: string, line: nat)

  datatype Chunk = Chunk(events: seq<Event>, status: Status)

  /** Start tags minus end tags: the element depth after the events. */
  function Balance(events: seq<Event>): int
  {
    if events == [] then 0
    else Balance(events[..|events| - 1]) + Step(events[|events| - 1])
  }

  function Step(e: Event): int
  {
    match e
    case StartTag(_, _) => 1
    case EndTag(_) => -1
    case Text(_) => 0
  }

  lemma {:induction false} BalanceAppend(a: seq<Event>, b: seq<Event>)
    ensures Balance(a + b) == Balance(a) + Balance(b)
    decreases |b|
  {
    if b == [] {
      assert a + b == a;
    } else {
      var b' := b[..|b| - 1];
      assert (a + b)[..|a + b| - 1] == a + b';
      BalanceAppend(a, b');
    }
  }

  /** Every end tag closes an element opened before it. */
  predicate Nested(events: seq<Event>)
  {
    events == [] ||
    (Nested(events[..|events| - 1]) &&
     (events[|events| - 1].EndTag? ==> Balance(events[..|events| - 1]) > 0))
  }

  /** A prefix of a nested sequence is nested. */
  lemma {:induction false} NestedPrefix(events: seq<Event>, m: nat)
    requires Nested(events) && m <= |events|
    ensures Nested(events[..m])
    decreases |events| - m
  {
    if m == |events| {
      assert events[..m] == events;
    } else {
      NestedPrefix(events, m + 1);
      assert events[..m + 1][..m] == events[..m];
    }
  }

  /** The events of the chunks, in order. */
  function Events(chunks: seq<Chunk>): seq<Event>
  {
    if chunks == [] then [] else Events(chunks[..|chunks| - 1]) + chunks[|chunks| - 1].events
  }

  predicate AllParsed(chunks: seq<Chunk>)
  {
    forall i :: 0 <= i < |chunks| ==> chunks[i].status.Parsed?
  }

  /**
   * What the tokenizer guarantees: end tags always match an open element,
   * and a document accepted to the end closes every element it opened.
   */
  predicate WellFormed(chunks: seq<Chunk>)
  {
    Nested(Events(chunks)) && (AllParsed(chunks) ==> Balance(Events(chunks)) == 0)
  }

  lemma EventsPrefix(chunks: seq<Chunk>, i: nat)
    requires i < |chunks|
    ensures Events(chunks[..i + 1]) == Events(chunks[..i]) + chunks[i].events
  {
    assert chunks[..i + 1][..i] == chunks[..i];
  }

  lemma {:induction false} EventsIsPrefix(chunks: seq<Chunk>, i: nat)
    requires i <= |chunks|
    ensures |Events(chunks[..i])| <= |Events(chunks)|
    ensures Events(chunks)[..|Events(chunks[..i])|] == Events(chunks[..i])
    decreases |chunks| - i
  {
    if i == |chunks| {
      assert chunks[..i] == chunks;
    } else {
      EventsIsPrefix(chunks, i + 1);
      EventsPrefix(chunks, i);
    }
  }
}
