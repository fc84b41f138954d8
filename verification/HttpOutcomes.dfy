/** One-shot outcomes of requests, the events they turn into, and what draining events gives back. */
module HttpOutcomes {
  import opened Options
  import opened HttpEvents

  datatype HttpResponse = HttpResponse(status: int, headers: seq<Header>, body: seq<Byte>)

  datatype HttpError = Unavailable | Failed(code: string, message: string)

  type Outcome = Result<HttpResponse, HttpError>

  // ----- events of an outcome -----

  /** A response, its body in one chunk unless it is empty, and the end; or a failure. */
  function OutcomeEvents(outcome: Outcome): seq<Event> {
    match outcome
    case Ok(r) => [Response(r.status, r.headers)] + (if r.body == [] then [] else [Chunk(r.body)]) + [Done]
    case Err(Failed(code, message)) => [Failure(code, message)]
    case Err(Unavailable) => [Failure("unsupported", "HTTP transport unavailable")]
  }

  datatype Fault = Fault(code: string, message: string)

  function ChunkEvents(chunks: seq<seq<Byte>>): seq<Event> {
    if chunks == [] then [] else [Chunk(chunks[0])] + ChunkEvents(chunks[1..])
  }

  function Ending(fault: Option<Fault>): Event {
    match fault case Some(f) => Failure(f.code, f.message) case None => Done
  }

  /** Events of a route that answers in chunks. */
  function ChunkedEvents(status: int, headers: seq<Header>, chunks: seq<seq<Byte>>, fault: Option<Fault>): seq<Event> {
    [Response(status, headers)] + ChunkEvents(chunks) + [Ending(fault)]
  }

  // ----- byte streams -----

  /** What a reader will return, block by block, and how it ends. */
  datatype Reader = Reader(blocks: seq<seq<Byte>>, fault: Option<Fault>)

  /** A read of no bytes is the end of the stream. */
  function StreamEvents(r: Reader): seq<Event>
    decreases |r.blocks|
  {
    if r.blocks == [] then [Ending(r.fault)]
    else if r.blocks[0] == [] then [Done]
    else [Chunk(r.blocks[0])] + StreamEvents(Reader(r.blocks[1..], r.fault))
  }

  /** All bytes up to the end of the stream. */
  function Content(blocks: seq<seq<Byte>>): seq<Byte> {
    if blocks == [] || blocks[0] == [] then [] else blocks[0] + Content(blocks[1..])
  }

  /** The stream ends with its fault unless a read of no bytes comes first. */
  function FaultOf(r: Reader): Option<Fault>
    decreases |r.blocks|
  {
    if r.blocks == [] then r.fault else if r.blocks[0] == [] then None else FaultOf(Reader(r.blocks[1..], r.fault))
  }

  function Concat(chunks: seq<seq<Byte>>): seq<Byte> {
    if chunks == [] then [] else chunks[0] + Concat(chunks[1..])
  }

  // ----- draining -----

  /** What the drain loop makes of the events still to come; past the last one there are sentinels. */
  function Drain(events: seq<Event>, sofar: HttpResponse): Outcome {
    if events == [] then Err(Failed("badServerResponse", "unknown or exhausted task handle"))
    else
      match events[0]
      case Response(status, headers) => Drain(events[1..], sofar.(status := status, headers := headers))
      case Chunk(bytes) => Drain(events[1..], sofar.(body := sofar.body + bytes))
      case Done => Ok(sofar)
      case Failure(code, message) => Err(Failed(code, message))
  }

  const NOTHING := HttpResponse(0, [], [])

  function Drained(events: seq<Event>): Outcome {
    Drain(events, NOTHING)
  }

  /** What one event that is not the last adds. */
  function Extend(sofar: HttpResponse, e: Event): HttpResponse {
    match e
    case Response(status, headers) => sofar.(status := status, headers := headers)
    case Chunk(bytes) => sofar.(body := sofar.body + bytes)
    case _ => sofar
  }

  function Collected(events: seq<Event>): HttpResponse {
    if events == [] then NOTHING else Extend(Collected(events[..|events| - 1]), events[|events| - 1])
  }

  lemma {:induction false} DrainAfter(events: seq<Event>, rest: seq<Event>)
    requires forall e <- events :: !e.IsTerminal()
    ensures Drained(events + rest) == Drain(rest, Collected(events))
    decreases |events|
  {
    if events == [] {
      assert events + rest == rest;
    } else {
      var before, last := events[..|events| - 1], events[|events| - 1];
      assert last in events && forall e <- before :: e in events;
      DrainAfter(before, [last] + rest);
      assert events + rest == before + ([last] + rest) && ([last] + rest)[1..] == rest;
    }
  }

  lemma {:induction false} DrainChunks(chunks: seq<seq<Byte>>, rest: seq<Event>, sofar: HttpResponse)
    ensures Drain(ChunkEvents(chunks) + rest, sofar) == Drain(rest, sofar.(body := sofar.body + Concat(chunks)))
    decreases |chunks|
  {
    var events := ChunkEvents(chunks) + rest;
    if chunks == [] {
      assert events == rest && sofar.body + [] == sofar.body;
    } else {
      assert events[1..] == ChunkEvents(chunks[1..]) + rest;
      DrainChunks(chunks[1..], rest, sofar.(body := sofar.body + chunks[0]));
      assert sofar.body + chunks[0] + Concat(chunks[1..]) == sofar.body + (chunks[0] + Concat(chunks[1..]));
    }
  }

  /** Draining the events of an outcome gives the outcome back. */
  lemma {:induction false} DrainOutcome(outcome: Outcome)
    requires outcome != Err(Unavailable)
    ensures Drained(OutcomeEvents(outcome)) == outcome
  {
    match outcome
    case Ok(r) =>
      var events, start := OutcomeEvents(outcome), HttpResponse(r.status, r.headers, []);
      if r.body == [] {
        assert events[1..] == [Done];
        assert Drained(events) == Drain([Done], start);
      } else {
        assert events[1..] == [Chunk(r.body), Done] && events[1..][1..] == [Done];
        assert [] + r.body == r.body;
        assert Drained(events) == Drain([Chunk(r.body), Done], start) == Drain([Done], r);
      }
    case Err(_) =>
  }

  /** Draining a chunked route gives its chunks joined, or its failure. */
  lemma {:induction false} DrainChunked(status: int, headers: seq<Header>, chunks: seq<seq<Byte>>, fault: Option<Fault>)
    ensures Drained(ChunkedEvents(status, headers, chunks, fault))
         == match fault
            case None => Ok(HttpResponse(status, headers, Concat(chunks)))
            case Some(f) => Err(Failed(f.code, f.message))
  {
    var events := ChunkedEvents(status, headers, chunks, fault);
    assert events[1..] == ChunkEvents(chunks) + [Ending(fault)];
    DrainChunks(chunks, [Ending(fault)], HttpResponse(status, headers, []));
    assert [] + Concat(chunks) == Concat(chunks);
  }

  lemma {:induction false} DrainStream(r: Reader, sofar: HttpResponse)
    ensures Drain(StreamEvents(r), sofar)
         == match FaultOf(r)
            case None => Ok(sofar.(body := sofar.body + Content(r.blocks)))
            case Some(f) => Err(Failed(f.code, f.message))
    decreases |r.blocks|
  {
    if r.blocks == [] || r.blocks[0] == [] {
      assert sofar.body + [] == sofar.body;
    } else {
      var rest := Reader(r.blocks[1..], r.fault);
      assert StreamEvents(r)[1..] == StreamEvents(rest);
      DrainStream(rest, sofar.(body := sofar.body + r.blocks[0]));
      assert sofar.body + r.blocks[0] + Content(rest.blocks) == sofar.body + (r.blocks[0] + Content(rest.blocks));
    }
  }

  /** Draining a network response gives all its bytes, however the reads cut them. */
  lemma {:induction false} DrainNetwork(status: int, headers: seq<Header>, r: Reader)
    ensures Drained([Response(status, headers)] + StreamEvents(r))
         == match FaultOf(r)
            case None => Ok(HttpResponse(status, headers, Content(r.blocks)))
            case Some(f) => Err(Failed(f.code, f.message))
  {
    assert ([Response(status, headers)] + StreamEvents(r))[1..] == StreamEvents(r);
    DrainStream(r, HttpResponse(status, headers, []));
    assert [] + Content(r.blocks) == Content(r.blocks);
  }

  predicate NoEmptyRead(blocks: seq<seq<Byte>>) {
    blocks != [] ==> blocks[0] != [] && NoEmptyRead(blocks[1..])
  }

  lemma {:induction false} WholeContent(r: Reader)
    requires NoEmptyRead(r.blocks)
    ensures Content(r.blocks) == Concat(r.blocks) && FaultOf(r) == r.fault
    decreases |r.blocks|
  {
    if r.blocks != [] {
      WholeContent(Reader(r.blocks[1..], r.fault));
    }
  }

  /** Two ways of reading the same bytes drain to the same outcome. */
  lemma {:induction false} ReadSizesDoNotMatter(status: int, headers: seq<Header>, r: Reader, s: Reader)
    requires NoEmptyRead(r.blocks) && NoEmptyRead(s.blocks) && Concat(r.blocks) == Concat(s.blocks) && r.fault == s.fault
    ensures Drained([Response(status, headers)] + StreamEvents(r)) == Drained([Response(status, headers)] + StreamEvents(s))
  {
    DrainNetwork(status, headers, r);
    DrainNetwork(status, headers, s);
    WholeContent(r);
    WholeContent(s);
  }

  // ----- the event contract -----

  /** Chunks and then one terminal event, the last. */
  predicate Closing(events: seq<Event>) {
    events != [] && if |events| == 1 then events[0].IsTerminal() else events[0].Chunk? && Closing(events[1..])
  }

  /** A lone failure, or a response followed by chunks and one terminal event. */
  predicate Ordered(events: seq<Event>) {
    |events| >= 1 && if events[0].Response? then Closing(events[1..]) else |events| == 1 && events[0].Failure?
  }

  /** Only the last event is terminal. */
  predicate Ends(events: seq<Event>) {
    events != [] && if |events| == 1 then events[0].IsTerminal() else !events[0].IsTerminal() && Ends(events[1..])
  }

  lemma {:induction false} ClosingEnds(events: seq<Event>)
    requires Closing(events)
    ensures Ends(events)
    decreases |events|
  {
    if |events| > 1 {
      ClosingEnds(events[1..]);
    }
  }

  lemma {:induction false} OrderedEnds(events: seq<Event>)
    requires Ordered(events)
    ensures Ends(events)
  {
    if events[0].Response? {
      ClosingEnds(events[1..]);
    }
  }

  lemma {:induction false} OutcomeIsOrdered(outcome: Outcome)
    ensures Ordered(OutcomeEvents(outcome))
  {
    match outcome
    case Ok(r) =>
      var events := OutcomeEvents(outcome);
      if r.body == [] {
        assert events[1..] == [Done];
      } else {
        assert events[1..] == [Chunk(r.body), Done] && events[1..][1..] == [Done];
      }
    case Err(_) =>
  }

  lemma {:induction false} ChunksClose(chunks: seq<seq<Byte>>, last: Event)
    requires last.IsTerminal()
    ensures Closing(ChunkEvents(chunks) + [last])
    decreases |chunks|
  {
    var events := ChunkEvents(chunks) + [last];
    if chunks != [] {
      assert events[1..] == ChunkEvents(chunks[1..]) + [last];
      ChunksClose(chunks[1..], last);
    }
  }

  lemma {:induction false} ChunkedIsOrdered(status: int, headers: seq<Header>, chunks: seq<seq<Byte>>, fault: Option<Fault>)
    ensures Ordered(ChunkedEvents(status, headers, chunks, fault))
  {
    ChunksClose(chunks, Ending(fault));
    assert ChunkedEvents(status, headers, chunks, fault)[1..] == ChunkEvents(chunks) + [Ending(fault)];
  }

  lemma {:induction false} StreamCloses(r: Reader)
    ensures Closing(StreamEvents(r))
    decreases |r.blocks|
  {
    if r.blocks != [] && r.blocks[0] != [] {
      StreamCloses(Reader(r.blocks[1..], r.fault));
      assert StreamEvents(r)[1..] == StreamEvents(Reader(r.blocks[1..], r.fault));
    }
  }
}
