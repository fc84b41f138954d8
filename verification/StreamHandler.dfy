/** The handler the interpreter thread drives and the queues host threads push into. Each method is
    shown to take the steps of `StreamProtocol` that its source performs. Pushes by other threads
    while a call is blocked or between its locks are parameters. */
module StreamHandler {
  import opened Options
  import opened HttpEvents
  import opened HttpOutcomes
  import opened StreamProtocol

  const BAD_URL := HttpError.Failed("badURL", "request contains a NUL byte")

  class TaskQueue {
    var events: seq<Event>
    var terminalPushed: bool

    ghost function View(): Queue
      reads this
    {
      Queue(events, terminalPushed)
    }

    constructor ()
      ensures View() == Queue([], false)
    {
      events := [];
      terminalPushed := false;
    }

    method Push(e: Event) returns (accepted: bool)
      modifies this
      ensures View() == old(View()).Push(e)
      ensures accepted == !old(terminalPushed)
    {
      var isTerminal := e.IsTerminal();
      if terminalPushed {
        return false;
      }
      if isTerminal {
        terminalPushed := true;
      }
      events := events + [e];
      return true;
    }

    method ForceCancel()
      modifies this
      ensures View() == old(View()).ForceCancel()
    {
      if !terminalPushed {
        events := [];
        events := events + [CANCELLED];
        terminalPushed := true;
      }
    }

    /** Pops the front event once the wait is over; an empty queue then means the deadline passed. */
    method NextEventTimeout() returns (r: Option<Event>)
      modifies this
      ensures old(events) == [] ==> r.None? && View() == old(View())
      ensures old(events) != [] ==> r == Some(old(events)[0]) && View() == old(View()).(events := old(events)[1..])
    {
      if events == [] {
        r := None;
      } else {
        r := Some(events[0]);
        events := events[1..];
      }
    }
  }

  datatype InFlightTask = InFlightTask(queue: TaskQueue, token: nat)

  /** A push by a host thread. */
  datatype Arrival = Arrival(token: nat, event: Event)

  ghost predicate Admissible(s: State, arrivals: seq<Arrival>) {
    !s.dropped && |s.accepted| == |s.queues| && forall a <- arrivals :: a.token < |s.queues|
  }

  /** The state after a series of host pushes. */
  ghost function PushAll(s: State, arrivals: seq<Arrival>): State
    requires Admissible(s, arrivals)
    decreases |arrivals|
  {
    if arrivals == [] then s
    else
      assert arrivals[0] in arrivals;
      PushAll(Apply(s, HostPush(arrivals[0].token, arrivals[0].event)), arrivals[1..])
  }

  lemma {:induction false} PushAllFrame(s: State, arrivals: seq<Arrival>)
    requires Inv(s) && Admissible(s, arrivals)
    ensures var t := PushAll(s, arrivals);
            Inv(t) && |t.queues| == |s.queues| && t.pending == s.pending && t.control == s.control && t.dropped == s.dropped
            && t.returned == s.returned && t.nextId == s.nextId
    decreases |arrivals|
  {
    if arrivals != [] {
      assert arrivals[0] in arrivals;
      HostPushKeeps(s, arrivals[0].token, arrivals[0].event);
      PushAllFrame(Apply(s, HostPush(arrivals[0].token, arrivals[0].event)), arrivals[1..]);
    }
  }

  /** The pushes during one `next_event` call: while it blocks, and between its deadline and its end. */
  datatype Round = Round(arrivals: seq<Arrival>, late: seq<Arrival>)

  ghost predicate KnownTokens(rounds: seq<Round>, tokens: nat) {
    forall round <- rounds :: (forall a <- round.arrivals :: a.token < tokens) && (forall a <- round.late :: a.token < tokens)
  }

  ghost predicate IsOver(given: seq<Event>) {
    given != [] && given[|given| - 1].IsTerminal()
  }

  /** What a call to `perform` made of the events of its handle: their outcome once the last has come,
      and then a response is all that the host sent. */
  ghost predicate PerformedWith(s: State, h: nat, rounds: nat, r: Option<Outcome>) {
    var given := Returned(s, h);
    && r == (if IsOver(given) then Some(Drained(given)) else None)
    && (r.None? ==> |given| == rounds)
    && (r.Some? && r.value.Ok? ==> 1 <= h <= |s.accepted| && r.value == Drained(s.accepted[h - 1]))
  }

  /** The handler between two calls of the drain loop. */
  ghost predicate Collecting(s: State, h: nat, rounds: nat, sofar: HttpResponse) {
    && !s.dropped && s.control.Idle? && 1 <= h <= |s.queues| == |s.accepted|
    && |Returned(s, h)| == rounds && NoTerminal(Returned(s, h)) && Collected(Returned(s, h)) == sofar
  }

  /** Where a blocked call goes on: with the front event, or past its deadline. */
  ghost function Woken(s: State): State
    requires Inv(s) && s.control.Waiting? && !s.dropped
  {
    assert TaskOk(s, s.control.token);
    if s.queues[s.control.token].events != [] then Apply(s, Wake) else Apply(s, Timeout)
  }

  /** What waking does to the task waited for. */
  ghost predicate WokenTask(s: State, h: nat, token: nat)
    requires Inv(s) && s.control == Waiting(h, token) && !s.dropped
  {
    assert TaskOk(s, token);
    var queue, t := s.queues[token], Woken(s);
    if queue.events == [] then t.pending == s.pending - {h} && t.queues[token] == queue
    else
      && t.pending == (if queue.events[0].IsTerminal() then s.pending - {h} else s.pending)
      && t.queues[token] == queue.(events := queue.events[1..])
  }

  lemma {:induction false} WokenKeeps(s: State)
    requires Inv(s) && s.control.Waiting? && !s.dropped
    ensures Inv(Woken(s)) && |Woken(s).queues| == |s.queues| && Woken(s).nextId == s.nextId
    ensures forall token: nat | token < |s.queues| && token != s.control.token :: Woken(s).queues[token] == s.queues[token]
    ensures WokenTask(s, s.control.handle, s.control.token)
  {
    if s.queues[s.control.token].events != [] {
      WakeKeeps(s);
    } else {
      TimeoutKeeps(s);
    }
  }

  /** Every pending handle has the task with its token and that token's queue. */
  ghost predicate TasksMatch(tasks: map<nat, InFlightTask>, tokens: seq<TaskQueue>, handles: map<nat, nat>) {
    && tasks.Keys == handles.Keys
    && forall h <- tasks :: handles[h] < |tokens| && tasks[h] == InFlightTask(tokens[handles[h]], handles[h])
  }

  class StreamingHostHttpHandler {
    var pending: map<nat, InFlightTask>
    var allTokens: seq<TaskQueue>
    var nextId: nat
    /** Where the protocol stands, history included. */
    ghost var state: State

    ghost predicate Valid()
      reads this, allTokens
    {
      && Inv(state)
      && nextId == state.nextId
      && |allTokens| == |state.queues|
      && (forall i: nat, j: nat | i < j < |allTokens| :: allTokens[i] != allTokens[j])
      && (forall i: nat | i < |allTokens| :: allTokens[i].View() == state.queues[i])
      && TasksMatch(pending, allTokens, state.pending)
    }

    constructor ()
      ensures Valid() && state == INITIAL && allTokens == []
    {
      pending := map[];
      allTokens := [];
      nextId := 1;
      state := INITIAL;
      new;
      RunKeeps([INITIAL], [], 0);
    }

    /** Issues a token and registers the task before the request text is checked, so a request with
        a NUL byte leaves a task behind that no caller knows. */
    method Start(hasNul: bool) returns (r: Result<nat, HttpError>)
      requires Valid() && Enabled(state, StreamProtocol.Start)
      modifies this
      ensures Valid() && state == Apply(old(state), StreamProtocol.Start)
      ensures r == if hasNul then Err(BAD_URL) else Ok(old(nextId))
      ensures |allTokens| == |old(allTokens)| + 1 && allTokens[..|old(allTokens)|] == old(allTokens)
      ensures fresh(allTokens[|old(allTokens)|])
    {
      StartKeeps(state);
      var queue := new TaskQueue();
      allTokens := allTokens + [queue];
      var id := nextId;
      nextId := nextId + 1;
      pending := pending[id := InFlightTask(queue, |allTokens| - 1)];
      state := Apply(state, StreamProtocol.Start);
      if hasNul {
        return Err(BAD_URL);
      }
      return Ok(id);
    }

    /** Host threads push while the interpreter does something else. */
    method Arrive(arrivals: seq<Arrival>)
      requires Valid() && Admissible(state, arrivals)
      modifies this`state, allTokens
      ensures Valid() && state == PushAll(old(state), arrivals)
      decreases |arrivals|
    {
      if arrivals != [] {
        var a := arrivals[0];
        assert a in arrivals;
        HostPushKeeps(state, a.token, a.event);
        var accepted := allTokens[a.token].Push(a.event);
        state := Apply(state, HostPush(a.token, a.event));
        Arrive(arrivals[1..]);
      }
    }

    /** Blocks until an event is queued or the deadline passes. `arrivals` are the pushes made while
        it is blocked, `late` those made after the deadline and before the queue is closed. */
    method NextEvent(h: nat, arrivals: seq<Arrival>, late: seq<Arrival>) returns (e: Event)
      requires Valid() && Enabled(state, Begin(h)) && Admissible(state, arrivals) && Admissible(state, late)
      modifies this, allTokens
      ensures Valid() && allTokens == old(allTokens)
      ensures Polled(old(state), h, arrivals, late, state)
      ensures Returned(state, h) == Returned(old(state), h) + [e]
    {
      var known := Lookup(h);
      if !known {
        return SENTINEL;
      }
      e := Await(h, arrivals, late);
    }

    method Await(h: nat, arrivals: seq<Arrival>, late: seq<Arrival>) returns (e: Event)
      requires Valid() && h in pending && state.control == Waiting(h, state.pending[h])
      requires Admissible(state, arrivals) && Admissible(state, late)
      modifies `pending, `state, allTokens
      ensures Valid()
      ensures Resumed(PushAll(old(state), arrivals), late, state)
      ensures Returned(state, h) == Returned(old(state), h) + [e]
    {
      ghost var s := state;
      PushAllFrame(s, arrivals);
      Arrive(arrivals);
      ghost var pushed := state;
      assert pushed.pending == s.pending && pushed.control == s.control && pushed.returned == s.returned;
      assert Returned(pushed, h) == Returned(s, h);
      assert Admissible(pushed, late);
      e := WakeOrExpire(h, late);
    }

    method Lookup(h: nat) returns (known: bool)
      requires Valid() && Enabled(state, Begin(h))
      modifies this`state
      ensures Valid() && state == Apply(old(state), Begin(h))
      ensures known <==> h in old(state).pending
      ensures known ==> h in pending && h in state.pending && state.control == Waiting(h, state.pending[h])
    {
      BeginKeeps(state, h);
      known := h in pending;
      state := Apply(state, Begin(h));
    }

    method WakeOrExpire(h: nat, late: seq<Arrival>) returns (e: Event)
      requires Valid() && h in pending && state.control == Waiting(h, state.pending[h]) && Admissible(state, late)
      modifies `pending, `state, allTokens
      ensures Valid()
      ensures Resumed(old(state), late, state)
      ensures Returned(state, h) == Returned(old(state), h) + [e]
    {
      var task := pending[h];
      assert task.queue == allTokens[state.control.token];
      ghost var s := state;
      var popped := Resume(h);
      if popped.Some? {
        return popped.value;
      }
      assert Returned(state, h) == Returned(s, h) && state.control == Expired(h, s.control.token);
      Lapse(task.queue, late);
      return TIMED_OUT;
    }

    /** Past the deadline: late pushes may come in until the queue is closed. */
    method Lapse(queue: TaskQueue, late: seq<Arrival>)
      requires Valid() && state.control.Expired? && !state.dropped && Admissible(state, late)
      requires state.control.token < |allTokens| && queue == allTokens[state.control.token]
      modifies `state, allTokens
      ensures Valid()
      ensures var lapsed := PushAll(old(state), late); Enabled(lapsed, Close) && state == Apply(lapsed, Close)
      ensures var h := old(state).control.handle; Returned(state, h) == Returned(old(state), h) + [TIMED_OUT]
    {
      PushAllFrame(state, late);
      Arrive(late);
      CloseQueue(queue);
    }

    /** The blocked call wakes up with the front event, or gives up at its deadline. */
    method Resume(h: nat) returns (popped: Option<Event>)
      requires Valid() && h in pending && state.control == Waiting(h, state.pending[h]) && !state.dropped
      modifies `pending, `state, pending[h].queue
      ensures Valid()
      ensures var s := old(state);
              if s.queues[s.pending[h]].events != []
              then Enabled(s, Wake) && state == Apply(s, Wake) && popped == Some(s.queues[s.pending[h]].events[0])
              else Enabled(s, Timeout) && state == Apply(s, Timeout) && popped.None?
    {
      ghost var next := Woken(state);
      WokenKeeps(state);
      var task := pending[h];
      popped := task.queue.NextEventTimeout();
      if popped.Some? {
        if popped.value.IsTerminal() {
          pending := pending - {h};
        }
      } else {
        pending := pending - {h};
      }
      assert TasksMatch(pending, allTokens, next.pending);
      state := next;
    }

    /** Marks a lapsed task's queue as ended, so that racing host pushes are refused. */
    method CloseQueue(queue: TaskQueue)
      requires Valid() && Enabled(state, Close) && queue == allTokens[state.control.token]
      modifies this`state, allTokens
      ensures Valid() && state == Apply(old(state), Close)
    {
      CloseKeeps(state);
      var accepted := queue.Push(TIMED_OUT);
      state := Apply(state, Close);
    }

    method Cancel(h: nat)
      requires Valid() && Enabled(state, StreamProtocol.Cancel(h))
      modifies this`state, allTokens
      ensures Valid() && state == Apply(old(state), StreamProtocol.Cancel(h))
    {
      CancelKeeps(state, h);
      if h in pending {
        var task := pending[h];
        task.queue.ForceCancel();
      }
      state := Apply(state, StreamProtocol.Cancel(h));
    }

    /** Drives one request to its last event. The source loops until that event; the model follows it
        through the calls in `rounds` and answers `None` when they end first. */
    method Perform(hasNul: bool, rounds: seq<Round>) returns (r: Option<Outcome>)
      requires Valid() && Enabled(state, StreamProtocol.Start) && KnownTokens(rounds, |state.queues| + 1)
      modifies this, allTokens
      ensures Valid()
      ensures hasNul ==> r == Some(Err(BAD_URL)) && state == Apply(old(state), StreamProtocol.Start)
      ensures !hasNul ==> PerformedWith(state, old(nextId), |rounds|, r)
    {
      var started := Start(hasNul);
      if started.Err? {
        return Some(Err(started.error));
      }
      r := DrainRounds(started.value, rounds);
    }

    method NextRound(h: nat, round: Round, ghost i: nat, ghost sofar: HttpResponse) returns (e: Event)
      requires Valid() && Collecting(state, h, i, sofar) && KnownTokens([round], |state.queues|)
      modifies this, allTokens
      ensures Valid() && allTokens == old(allTokens) && |state.queues| == old(|state.queues|)
      ensures if e.IsTerminal() then PerformedWith(state, h, i + 1, Some(Drain([e], sofar)))
              else Collecting(state, h, i + 1, Extend(sofar, e))
    {
      ghost var s := state;
      assert round in [round];
      e := NextEvent(h, round.arrivals, round.late);
      RoundCollects(s, h, i, sofar, round, state, e);
    }

    method DrainRounds(h: nat, rounds: seq<Round>) returns (r: Option<Outcome>)
      requires Valid() && Collecting(state, h, 0, NOTHING) && KnownTokens(rounds, |state.queues|)
      modifies this, allTokens
      ensures Valid() && PerformedWith(state, h, |rounds|, r)
    {
      var sofar := NOTHING;
      for i := 0 to |rounds|
        invariant Valid() && allTokens == old(allTokens)
        invariant Collecting(state, h, i, sofar) && KnownTokens(rounds, |state.queues|)
      {
        assert rounds[i] in rounds;
        var e := NextRound(h, rounds[i], i, sofar);
        match e
        case Response(status, headers) => sofar := sofar.(status := status, headers := headers);
        case Chunk(bytes) => sofar := sofar.(body := sofar.body + bytes);
        case Done => return Some(Ok(sofar));
        case Failure(code, message) => return Some(Err(HttpError.Failed(code, message)));
      }
      return None;
    }

    /** Frees the tokens one by one, in order of issue, until none is left. */
    method DropTokens() returns (freed: seq<nat>)
      requires Valid() && Enabled(state, Drop)
      modifies this`state
      ensures Valid() && state == old(state).(dropped := true, live := [], freed := old(state).live)
      ensures freed == state.freed
    {
      StepKeeps(state, Drop);
      state := Apply(state, Drop);
      freed := [];
      ghost var issued := state.live;
      for i := 0 to |allTokens|
        invariant Valid() && state == old(state).(dropped := true, live := issued[i..], freed := issued[..i])
        invariant |issued| == |allTokens| && freed == issued[..i]
      {
        FreeToken(i);
        freed := freed + [i];
      }
    }

    method FreeToken(token: nat)
      requires Valid() && state.dropped && token == |state.freed| < |allTokens|
      modifies this`state
      ensures Valid() && state.freed == old(state).freed + [token] && [token] + state.live == old(state).live
      ensures state == old(state).(live := state.live, freed := state.freed)
    {
      ghost var all := state.freed + state.live;
      assert all[token] == token == state.live[0];
      StepKeeps(state, Free);
      state := Apply(state, Free);
    }
  }

  /** A blocked call comes back: with an event, or by timing out, late pushes and closing the queue. */
  ghost predicate Resumed(s: State, late: seq<Arrival>, t: State) {
    if Enabled(s, Wake) then t == Apply(s, Wake)
    else
      Enabled(s, Timeout) && Admissible(Apply(s, Timeout), late) &&
      var lapsed := PushAll(Apply(s, Timeout), late);
      Enabled(lapsed, Close) && t == Apply(lapsed, Close)
  }

  /** One whole `next_event` call as protocol steps. */
  ghost predicate Polled(s: State, h: nat, arrivals: seq<Arrival>, late: seq<Arrival>, t: State) {
    Enabled(s, Begin(h)) &&
    var begun := Apply(s, Begin(h));
    if h !in s.pending then t == begun
    else Admissible(begun, arrivals) && Resumed(PushAll(begun, arrivals), late, t)
  }

  lemma {:induction false} RoundCollects(s: State, h: nat, i: nat, sofar: HttpResponse, round: Round, t: State, e: Event)
    requires Inv(s) && Inv(t) && Collecting(s, h, i, sofar) && Polled(s, h, round.arrivals, round.late, t)
    requires Returned(t, h) == Returned(s, h) + [e]
    ensures |t.queues| == |s.queues|
    ensures if e.IsTerminal() then PerformedWith(t, h, i + 1, Some(Drain([e], sofar))) else Collecting(t, h, i + 1, Extend(sofar, e))
  {
    var given := Returned(s, h);
    PolledFrame(s, h, round.arrivals, round.late, t);
    DrainAfter(given, [e]);
    assert (given + [e])[..|given|] == given;
    if e.Done? {
      AllGiven(t, h, |given|);
      assert (given + [e])[..|given| + 1] == given + [e];
    }
  }

  /** After a whole call the handler is idle again, with the same tokens. */
  lemma {:induction false} PolledFrame(s: State, h: nat, arrivals: seq<Arrival>, late: seq<Arrival>, t: State)
    requires Inv(s) && Polled(s, h, arrivals, late, t)
    ensures t.control.Idle? && !t.dropped && |t.queues| == |s.queues|
  {
    BeginKeeps(s, h);
    if h in s.pending {
      var begun := Apply(s, Begin(h));
      PushAllFrame(begun, arrivals);
      var blocked := PushAll(begun, arrivals);
      if !Enabled(blocked, Wake) {
        TimeoutKeeps(blocked);
        PushAllFrame(Apply(blocked, Timeout), late);
      }
    }
  }
}
