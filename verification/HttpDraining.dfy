/** What draining makes of any sequence of events, and how few events an outcome takes. */
module HttpDraining {
  import opened Options
  import opened HttpEvents
  import opened HttpOutcomes

  /** The first terminal event stands at `n`. */
  ghost predicate TerminalAt(events: seq<Event>, n: nat) {
    n < |events| && events[n].IsTerminal() && forall k | 0 <= k < n :: !events[k].IsTerminal()
  }

  /** The last response among these events stands at `i`. */
  ghost predicate LastResponseAt(events: seq<Event>, i: nat) {
    i < |events| && events[i].Response? && forall k | i < k < |events| :: !events[k].Response?
  }

  /** The chunks in their order. */
  function ChunksOf(events: seq<Event>): seq<seq<Byte>> {
    if events == [] then []
    else ChunksOf(events[..|events| - 1]) + match events[|events| - 1] case Chunk(bytes) => [bytes] case _ => []
  }

  lemma {:induction false} ConcatMore(chunks: seq<seq<Byte>>, bytes: seq<Byte>)
    ensures Concat(chunks + [bytes]) == Concat(chunks) + bytes
    decreases |chunks|
  {
    if chunks == [] {
      assert [] + [bytes] == [bytes] && [bytes][1..] == [] && bytes + [] == bytes;
    } else {
      assert (chunks + [bytes])[1..] == chunks[1..] + [bytes];
      ConcatMore(chunks[1..], bytes);
      assert chunks[0] + (Concat(chunks[1..]) + bytes) == chunks[0] + Concat(chunks[1..]) + bytes;
    }
  }

  /** The status and headers are those of the last response, or the first values if there is none. */
  ghost predicate HeadOf(events: seq<Event>, r: HttpResponse) {
    && (forall i: nat | LastResponseAt(events, i) :: events[i] == Response(r.status, r.headers))
    && ((forall e <- events :: !e.Response?) ==> r.status == 0 && r.headers == [])
  }

  lemma {:induction false} CollectedBody(events: seq<Event>)
    ensures Collected(events).body == Concat(ChunksOf(events))
    decreases |events|
  {
    if events != [] {
      var before, last := events[..|events| - 1], events[|events| - 1];
      CollectedBody(before);
      BodyOfMore(before, last, Collected(before).body);
      assert events == before + [last];
    }
  }

  lemma {:induction false} BodyOfMore(before: seq<Event>, last: Event, body: seq<Byte>)
    requires body == Concat(ChunksOf(before))
    ensures Concat(ChunksOf(before + [last])) == if last.Chunk? then body + last.bytes else body
  {
    assert (before + [last])[..|before|] == before;
    if last.Chunk? {
      ConcatMore(ChunksOf(before), last.bytes);
    } else {
      assert ChunksOf(before) + [] == ChunksOf(before);
    }
  }

  lemma {:induction false} CollectedHead(events: seq<Event>)
    ensures HeadOf(events, Collected(events))
    decreases |events|
  {
    if events != [] {
      CollectedHead(events[..|events| - 1]);
      HeadOfMore(events, Collected(events[..|events| - 1]), Collected(events));
    }
  }

  lemma {:induction false} HeadOfMore(events: seq<Event>, r: HttpResponse, s: HttpResponse)
    requires events != [] && HeadOf(events[..|events| - 1], r) && s == Extend(r, events[|events| - 1])
    ensures HeadOf(events, s)
  {
    var before := events[..|events| - 1];
    forall i: nat | LastResponseAt(events, i)
      ensures events[i] == Response(s.status, s.headers)
    {
      if i < |before| {
        assert !events[|before|].Response?;
        assert forall k | i < k < |before| :: before[k] == events[k];
        assert LastResponseAt(before, i);
      }
    }
    if forall e <- events :: !e.Response? {
      assert events[|before|] in events && forall e <- before :: e in events;
    }
  }

  /** Draining stops at the first terminal event: a failure is the outcome; after `Done` it is the last
      response before it with all chunks joined. */
  lemma {:induction false} DrainMeans(events: seq<Event>, n: nat)
    requires TerminalAt(events, n)
    ensures match events[n]
            case Failure(code, message) => Drained(events) == Err(Failed(code, message))
            case _ =>
              && Drained(events).Ok?
              && Drained(events).value.body == Concat(ChunksOf(events[..n]))
              && HeadOf(events[..n], Drained(events).value)
  {
    assert events == events[..n] + events[n..];
    DrainAfter(events[..n], events[n..]);
    CollectedBody(events[..n]);
    CollectedHead(events[..n]);
  }

  /** Without a terminal event the drain ends with the sentinel of an exhausted handle. */
  lemma {:induction false} DrainUnended(events: seq<Event>)
    requires forall e <- events :: !e.IsTerminal()
    ensures Drained(events) == Err(Failed(SENTINEL.code, SENTINEL.message))
  {
    assert events + [] == events;
    DrainAfter(events, []);
  }

  /** An outcome takes at most three events and never an empty chunk; an unavailable transport is told
      as an unsupported request. */
  lemma {:induction false} OutcomeIsLean(outcome: Outcome)
    ensures |OutcomeEvents(outcome)| <= 3 && Chunk([]) !in OutcomeEvents(outcome)
    ensures Drained(OutcomeEvents(Err(Unavailable))) == Err(Failed("unsupported", "HTTP transport unavailable"))
  {
  }
}
