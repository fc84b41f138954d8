/** The three sequential transports: the default one over a one-shot backend, the scripted mock and
    the network one. */
module HttpTransports {
  import opened Options
  import opened HttpEvents
  import opened HttpOutcomes

  datatype Request = Request(url: string, verb: string)

  datatype Route = Route(verb: string, url: string, outcome: Outcome)

  datatype ChunkedRoute = ChunkedRoute(
    verb: string, url: string, status: int, headers: seq<Header>, chunks: seq<seq<Byte>>, failAfterChunks: Option<Fault>)

  /** The network connection as the client library hands it over. */
  datatype Connection = Connection(status: int, headers: seq<Header>, reader: Reader)

  // ----- routes -----

  function LowerAscii(c: char): char {
    if 'A' <= c <= 'Z' then (c as int + 32) as char else c
  }

  predicate SameIgnoringCase(a: string, b: string) {
    |a| == |b| && forall i | 0 <= i < |a| :: LowerAscii(a[i]) == LowerAscii(b[i])
  }

  function FindRoute(routes: seq<Route>, req: Request): Option<Outcome> {
    if routes == [] then None
    else if SameIgnoringCase(routes[0].verb, req.verb) && routes[0].url == req.url then Some(routes[0].outcome)
    else FindRoute(routes[1..], req)
  }

  function FindChunked(routes: seq<ChunkedRoute>, req: Request): Option<ChunkedRoute> {
    if routes == [] then None
    else if SameIgnoringCase(routes[0].verb, req.verb) && routes[0].url == req.url then Some(routes[0])
    else FindChunked(routes[1..], req)
  }

  /** Unrouted requests fail like an unknown host. */
  function MockOutcome(routes: seq<Route>, req: Request): Outcome {
    match FindRoute(routes, req)
    case Some(outcome) => outcome
    case None => Err(Failed("cannotFindHost", "no mock route for " + req.verb + " " + req.url))
  }

  /** The same letter, or the two cases of one ASCII letter. */
  predicate SameLetter(a: char, b: char) {
    || a == b
    || ('A' <= a <= 'Z' && b as int - a as int == 'a' as int - 'A' as int)
    || ('A' <= b <= 'Z' && a as int - b as int == 'a' as int - 'A' as int)
  }

  /** A route for this verb and URL: the same URL, and the same verb up to ASCII case. */
  predicate Serves(verb: string, url: string, req: Request) {
    url == req.url && |verb| == |req.verb| && forall i | 0 <= i < |verb| :: SameLetter(verb[i], req.verb[i])
  }

  lemma {:induction false} ServingIs(verb: string, url: string, req: Request)
    ensures SameIgnoringCase(verb, req.verb) && url == req.url <==> Serves(verb, url, req)
  {
    forall a: char, b: char
      ensures LowerAscii(a) == LowerAscii(b) <==> SameLetter(a, b)
    {
    }
  }

  /** The smallest index of a route that serves the request. */
  predicate FirstRoute(routes: seq<Route>, req: Request, i: nat) {
    && i < |routes| && Serves(routes[i].verb, routes[i].url, req)
    && forall j | 0 <= j < i :: !Serves(routes[j].verb, routes[j].url, req)
  }

  predicate FirstChunked(routes: seq<ChunkedRoute>, req: Request, i: nat) {
    && i < |routes| && Serves(routes[i].verb, routes[i].url, req)
    && forall j | 0 <= j < i :: !Serves(routes[j].verb, routes[j].url, req)
  }

  /** The route found is the first that serves the request, and none is found exactly when none serves it. */
  lemma {:induction false} RouteFound(routes: seq<Route>, req: Request)
    ensures forall i: nat | FirstRoute(routes, req, i) :: FindRoute(routes, req) == Some(routes[i].outcome)
    ensures FindRoute(routes, req).None? <==> forall i | 0 <= i < |routes| :: !Serves(routes[i].verb, routes[i].url, req)
    decreases |routes|
  {
    if routes != [] {
      var rest := routes[1..];
      ServingIs(routes[0].verb, routes[0].url, req);
      RouteFound(rest, req);
      assert forall j | 0 < j < |routes| :: routes[j] == rest[j - 1];
      forall i: nat | FirstRoute(routes, req, i) && i > 0
        ensures FirstRoute(rest, req, i - 1)
      {
        assert forall j | 0 <= j < i - 1 :: rest[j] == routes[j + 1];
      }
    }
  }

  lemma {:induction false} ChunkedFound(routes: seq<ChunkedRoute>, req: Request)
    ensures forall i: nat | FirstChunked(routes, req, i) :: FindChunked(routes, req) == Some(routes[i])
    ensures FindChunked(routes, req).None? <==> forall i | 0 <= i < |routes| :: !Serves(routes[i].verb, routes[i].url, req)
    decreases |routes|
  {
    if routes != [] {
      var rest := routes[1..];
      ServingIs(routes[0].verb, routes[0].url, req);
      ChunkedFound(rest, req);
      assert forall j | 0 < j < |routes| :: routes[j] == rest[j - 1];
      forall i: nat | FirstChunked(routes, req, i) && i > 0
        ensures FirstChunked(rest, req, i - 1)
      {
        assert forall j | 0 <= j < i - 1 :: rest[j] == routes[j + 1];
      }
    }
  }

  // ----- what is pending -----

  /** A queue of events, or the state of a network stream. */
  datatype Pending =
    | Queue(events: seq<Event>)
    | PendingResponse(status: int, headers: seq<Header>, body: Reader)
    | Reading(reader: Reader)
    | Cancelled

  /** The events still to be delivered. */
  function Left(p: Pending): seq<Event> {
    match p
    case Queue(events) => events
    case PendingResponse(status, headers, body) => [Response(status, headers)] + StreamEvents(body)
    case Reading(reader) => StreamEvents(reader)
    case Cancelled => [CANCELLED]
  }

  /** Which implementation answers; network answers are given with each request. */
  datatype Backend = OneShot | Mock(routes: seq<Route>, chunked: seq<ChunkedRoute>) | Network

  datatype Answer = Performed(outcome: Outcome) | Connected(connection: Result<Connection, HttpError>)

  /** The events a started request will deliver, or why it did not start. */
  function Plan(backend: Backend, req: Request, answer: Answer): Result<seq<Event>, HttpError> {
    match backend
    case OneShot =>
      if !answer.Performed? || answer.outcome == Err(Unavailable) then Err(Unavailable) else Ok(OutcomeEvents(answer.outcome))
    case Mock(routes, chunked) =>
      (match FindChunked(chunked, req)
       case Some(cr) => Ok(ChunkedEvents(cr.status, cr.headers, cr.chunks, cr.failAfterChunks))
       case None =>
         if MockOutcome(routes, req) == Err(Unavailable) then Err(Unavailable) else Ok(OutcomeEvents(MockOutcome(routes, req))))
    case Network =>
      if !answer.Connected? then Err(Unavailable)
      else
        match answer.connection
        case Err(e) => Err(e)
        case Ok(c) => Ok([Response(c.status, c.headers)] + StreamEvents(c.reader))
  }

  /** What polling delivers and what it leaves. */
  function Polled(pending: map<nat, seq<Event>>, h: nat): (Event, map<nat, seq<Event>>) {
    if h !in pending || pending[h] == [] then (SENTINEL, pending)
    else if pending[h][0].IsTerminal() then (pending[h][0], pending - {h})
    else (pending[h][0], pending[h := pending[h][1..]])
  }

  class Transport {
    const backend: Backend
    var nextId: nat
    var pending: map<nat, Pending>

    /** The events still to be delivered, for each handle. */
    ghost function View(): map<nat, seq<Event>>
      reads this
    {
      map h | h in pending :: Left(pending[h])
    }

    /** Every pending request has one terminal event, the last of its events. */
    ghost predicate Valid()
      reads this
    {
      forall h | h in pending :: Ends(Left(pending[h]))
    }

    constructor (backend: Backend)
      ensures Valid() && this.backend == backend && nextId == 0 && pending == map[]
    {
      this.backend := backend;
      nextId := 0;
      pending := map[];
    }

    method Start(req: Request, answer: Answer) returns (r: Result<nat, HttpError>)
      requires Valid()
      modifies this
      ensures Valid()
      ensures r.Ok? <==> Plan(backend, req, answer).Ok?
      ensures r.Err? ==> r.error == Plan(backend, req, answer).error && View() == old(View())
      ensures r.Ok? ==> r.value == nextId == old(nextId) + 1 && View() == old(View())[r.value := Plan(backend, req, answer).value]
      ensures r.Ok? ==> Ordered(Plan(backend, req, answer).value)
      ensures nextId == old(nextId) + if backend.Mock? || r.Ok? then 1 else 0
    {
      ghost var was := View();
      if backend.Mock? {
        nextId := nextId + 1;
      }
      var pend := Open(req, answer);
      if pend.Err? {
        return Err(pend.error);
      }
      if !backend.Mock? {
        nextId := nextId + 1;
      }
      pending := pending[nextId := pend.value];
      OrderedEnds(Left(pend.value));
      assert View() == was[nextId := Left(pend.value)];
      return Ok(nextId);
    }

    /** What a request starts as. */
    method Open(req: Request, answer: Answer) returns (r: Result<Pending, HttpError>)
      ensures r.Err? ==> Plan(backend, req, answer) == Err(r.error)
      ensures r.Ok? ==> Plan(backend, req, answer) == Ok(Left(r.value)) && Ordered(Left(r.value))
      ensures backend.Mock? ==>
                FirstAnswers(backend.routes, backend.chunked, req, if r.Ok? then Drained(Left(r.value)) else Err(r.error))
    {
      DrainIsExpected(backend, req, answer);
      if backend.Mock? {
        MockAnswersFirst(backend.routes, backend.chunked, req, answer);
      }
      match backend {
        case OneShot =>
          if !answer.Performed? || answer.outcome == Err(Unavailable) {
            return Err(Unavailable);
          }
          OutcomeIsOrdered(answer.outcome);
          return Ok(Queue(OutcomeEvents(answer.outcome)));
        case Mock(routes, chunked) =>
          var route := FindChunked(chunked, req);
          if route.Some? {
            var cr := route.value;
            ChunkedIsOrdered(cr.status, cr.headers, cr.chunks, cr.failAfterChunks);
            return Ok(Queue(ChunkedEvents(cr.status, cr.headers, cr.chunks, cr.failAfterChunks)));
          }
          var outcome := MockOutcome(routes, req);
          if outcome == Err(Unavailable) {
            return Err(Unavailable);
          }
          OutcomeIsOrdered(outcome);
          return Ok(Queue(OutcomeEvents(outcome)));
        case Network =>
          if !answer.Connected? {
            return Err(Unavailable);
          }
          if answer.connection.Err? {
            return Err(answer.connection.error);
          }
          var c := answer.connection.value;
          var p := PendingResponse(c.status, c.headers, c.reader);
          StreamCloses(c.reader);
          assert Left(p)[1..] == StreamEvents(c.reader);
          return Ok(p);
      }
    }

    method NextEvent(h: nat) returns (e: Event)
      requires Valid()
      modifies this
      ensures Valid() && nextId == old(nextId)
      ensures (e, View()) == Polled(old(View()), h)
    {
      ghost var was := View();
      if h !in pending {
        return SENTINEL;
      }
      var p := pending[h];
      var rest: Option<Pending>;
      e, rest := Advance(p);
      if rest.None? {
        pending := pending - {h};
        assert View() == was - {h};
      } else {
        pending := pending[h := rest.value];
        assert View() == was[h := Left(rest.value)];
      }
    }

    /** The next event of a request and the state it goes on in, unless the event was its last. */
    static method Advance(p: Pending) returns (e: Event, rest: Option<Pending>)
      requires Ends(Left(p))
      ensures e == Left(p)[0] && (rest.None? <==> e.IsTerminal())
      ensures rest.Some? ==> Left(rest.value) == Left(p)[1..] && Ends(Left(rest.value))
    {
      match p {
        case Queue(events) => e, rest := events[0], if events[0].IsTerminal() then None else Some(Queue(events[1..]));
        case PendingResponse(status, headers, body) =>
          e, rest := Response(status, headers), Some(Reading(body));
          assert Left(p)[1..] == StreamEvents(body);
        case Reading(reader) =>
          if reader.blocks == [] {
            e, rest := Ending(reader.fault), None;
          } else if reader.blocks[0] == [] {
            e, rest := Done, None;
          } else {
            var later := Reader(reader.blocks[1..], reader.fault);
            e, rest := Chunk(reader.blocks[0]), Some(Reading(later));
            assert Left(p)[1..] == StreamEvents(later);
          }
        case Cancelled => e, rest := CANCELLED, None;
      }
    }

    method Cancel(h: nat)
      requires Valid()
      modifies this
      ensures Valid() && nextId == old(nextId) && View() == old(View())[h := [CANCELLED]]
    {
      ghost var was := View();
      pending := pending[h := if backend.Network? then Cancelled else Queue([CANCELLED])];
      assert View() == was[h := [CANCELLED]];
    }

    /** Drains one request into a one-shot outcome. */
    method PerformHttp(req: Request, answer: Answer) returns (r: Outcome)
      requires Valid()
      modifies this
      ensures Valid()
      ensures r == Expected(backend, req, answer)
      ensures backend.Mock? ==> FirstAnswers(backend.routes, backend.chunked, req, r)
      ensures forall h :: h != nextId ==> (h in View() <==> h in old(View())) && (h in View() ==> View()[h] == old(View())[h])
    {
      ghost var was := View();
      DrainIsExpected(backend, req, answer);
      if backend.Mock? {
        MockAnswersFirst(backend.routes, backend.chunked, req, answer);
      }
      var started := Start(req, answer);
      if started.Err? {
        return Err(started.error);
      }
      var h := started.value;
      var sofar := NOTHING;
      ghost var events := Plan(backend, req, answer).value;
      while true
        invariant Valid() && nextId == h && h in View() && Ends(View()[h])
        invariant Drain(View()[h], sofar) == Drained(events)
        invariant View() - {h} == was - {h}
        decreases |View()[h]|
      {
        var e := NextEvent(h);
        match e
        case Response(status, headers) => sofar := sofar.(status := status, headers := headers);
        case Chunk(bytes) => sofar := sofar.(body := sofar.body + bytes);
        case Done => return Ok(sofar);
        case Failure(code, message) => return Err(Failed(code, message));
      }
    }
  }

  // ----- what a drained request gives -----

  /** The outcome a caller should see: the one-shot outcome of the default transport and of regular
      mock routes, the joined chunks of a chunked route, the whole body of a network response. */
  function Expected(backend: Backend, req: Request, answer: Answer): Outcome {
    match backend
    case OneShot => if answer.Performed? then answer.outcome else Err(Unavailable)
    case Mock(routes, chunked) =>
      (match FindChunked(chunked, req)
       case None => MockOutcome(routes, req)
       case Some(cr) => ChunkedOutcome(cr))
    case Network =>
      if !answer.Connected? then Err(Unavailable)
      else
        match answer.connection
        case Err(e) => Err(e)
        case Ok(c) =>
          match FaultOf(c.reader)
          case Some(f) => Err(Failed(f.code, f.message))
          case None => Ok(HttpResponse(c.status, c.headers, Content(c.reader.blocks)))
  }

  /** The failure of a chunked route, or its chunks joined. */
  function ChunkedOutcome(cr: ChunkedRoute): Outcome {
    match cr.failAfterChunks
    case Some(f) => Err(Failed(f.code, f.message))
    case None => Ok(HttpResponse(cr.status, cr.headers, Concat(cr.chunks)))
  }

  /** The first chunked route that serves the request answers; without one the first regular route
      does; and without either the host cannot be found. */
  ghost predicate FirstAnswers(routes: seq<Route>, chunked: seq<ChunkedRoute>, req: Request, r: Outcome) {
    && (forall i: nat | FirstChunked(chunked, req, i) :: r == ChunkedOutcome(chunked[i]))
    && ((forall i | 0 <= i < |chunked| :: !Serves(chunked[i].verb, chunked[i].url, req)) ==>
          && (forall i: nat | FirstRoute(routes, req, i) :: r == routes[i].outcome)
          && ((forall i | 0 <= i < |routes| :: !Serves(routes[i].verb, routes[i].url, req)) ==>
                r == Err(Failed("cannotFindHost", "no mock route for " + req.verb + " " + req.url))))
  }

  lemma {:induction false} MockAnswersFirst(routes: seq<Route>, chunked: seq<ChunkedRoute>, req: Request, answer: Answer)
    ensures FirstAnswers(routes, chunked, req, Expected(Mock(routes, chunked), req, answer))
  {
    ChunkedFound(chunked, req);
    RouteFound(routes, req);
  }

  /** Draining a request gives that outcome, for every backend. */
  lemma {:induction false} DrainIsExpected(backend: Backend, req: Request, answer: Answer)
    ensures (match Plan(backend, req, answer) case Err(e) => Err(e) case Ok(events) => Drained(events))
         == Expected(backend, req, answer)
  {
    match backend
    case OneShot =>
      if answer.Performed? && answer.outcome != Err(Unavailable) {
        DrainOutcome(answer.outcome);
      }
    case Mock(routes, chunked) =>
      match FindChunked(chunked, req) {
        case Some(cr) => DrainChunked(cr.status, cr.headers, cr.chunks, cr.failAfterChunks);
        case None =>
          if MockOutcome(routes, req) != Err(Unavailable) {
            DrainOutcome(MockOutcome(routes, req));
          }
      }
    case Network =>
      if answer.Connected? && answer.connection.Ok? {
        var c := answer.connection.value;
        DrainNetwork(c.status, c.headers, c.reader);
      }
  }

  // ----- runs over several handles -----

  /** What a caller does with a transport. */
  datatype Op = Begin(h: nat, events: seq<Event>) | Poll(h: nat) | Stop(h: nat)

  type Pendings = map<nat, seq<Event>>

  function After(view: Pendings, op: Op): Pendings {
    match op
    case Begin(h, events) => view[h := events]
    case Poll(h) => Polled(view, h).1
    case Stop(h) => view[h := [CANCELLED]]
  }

  /** The events delivered to handle `h` in a run. */
  function EventsFor(view: Pendings, ops: seq<Op>, h: nat): seq<Event>
    decreases |ops|
  {
    if ops == [] then []
    else (if ops[0] == Poll(h) then [Polled(view, h).0] else []) + EventsFor(After(view, ops[0]), ops[1..], h)
  }

  /** The operations on one handle. */
  function Only(ops: seq<Op>, h: nat): seq<Op> {
    if ops == [] then [] else (if ops[0].h == h then [ops[0]] else []) + Only(ops[1..], h)
  }

  predicate SameAt(a: Pendings, b: Pendings, h: nat) {
    (h in a <==> h in b) && (h in a ==> a[h] == b[h])
  }

  /** What a handle is sent depends only on the operations on that handle. */
  lemma {:induction false} HandlesAreIndependent(a: Pendings, b: Pendings, ops: seq<Op>, h: nat)
    requires SameAt(a, b, h)
    ensures EventsFor(a, ops, h) == EventsFor(b, Only(ops, h), h)
    decreases |ops|
  {
    if ops != [] {
      var op, later := ops[0], Only(ops[1..], h);
      if op.h == h {
        assert SameAt(After(a, op), After(b, op), h);
        HandlesAreIndependent(After(a, op), After(b, op), ops[1..], h);
        assert Only(ops, h) == [op] + later && ([op] + later)[1..] == later;
      } else {
        assert SameAt(After(a, op), b, h);
        HandlesAreIndependent(After(a, op), b, ops[1..], h);
        assert Only(ops, h) == later;
      }
    }
  }

  function Polls(h: nat, n: nat): seq<Op> {
    if n == 0 then [] else [Poll(h)] + Polls(h, n - 1)
  }

  function Sentinels(n: nat): seq<Event> {
    if n == 0 then [] else [SENTINEL] + Sentinels(n - 1)
  }

  lemma {:induction false} DeadHandle(view: Pendings, h: nat, n: nat)
    requires h !in view
    ensures EventsFor(view, Polls(h, n), h) == Sentinels(n)
    decreases n
  {
    if n > 0 {
      assert Polls(h, n)[1..] == Polls(h, n - 1);
      DeadHandle(view, h, n - 1);
    }
  }

  /** A live handle is sent its events in order, and sentinels after the last. */
  lemma {:induction false} PollsDeliver(view: Pendings, h: nat, n: nat)
    requires h in view && Ends(view[h])
    ensures EventsFor(view, Polls(h, n), h)
         == if n <= |view[h]| then view[h][..n] else view[h] + Sentinels(n - |view[h]|)
    decreases n
  {
    if n > 0 {
      var events := view[h];
      var next := After(view, Poll(h));
      assert Polls(h, n)[1..] == Polls(h, n - 1);
      if |events| == 1 {
        DeadHandle(next, h, n - 1);
        assert events == [events[0]];
      } else {
        PollsDeliver(next, h, n - 1);
        assert next[h] == events[1..] && events == [events[0]] + events[1..];
      }
    }
  }

  /** After a cancel, one cancelled event and then sentinels, whatever other handles do. */
  lemma {:induction false} CancelDelivers(view: Pendings, h: nat, ops: seq<Op>, n: nat)
    requires Only(ops, h) == Polls(h, n) && n > 0
    ensures EventsFor(After(view, Stop(h)), ops, h) == [CANCELLED] + Sentinels(n - 1)
  {
    var after := After(view, Stop(h));
    HandlesAreIndependent(after, after, ops, h);
    PollsDeliver(after, h, n);
    assert Sentinels(0) == [];
  }
}
