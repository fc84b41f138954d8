/** The streaming request protocol as a state machine: host threads push events into per-task queues
    while the interpreter thread starts, polls, cancels and times out tasks. Every step is what one
    thread does under a queue's lock, or between two locks; any interleaving of steps is a run. */
module StreamProtocol {
  import opened Options
  import opened HttpEvents

  // ----- one task's queue -----

  datatype Queue = Queue(events: seq<Event>, terminalPushed: bool) {
    /** A push after a terminal event is refused. */
    function Push(e: Event): Queue {
      if terminalPushed then this else Queue(events + [e], e.IsTerminal())
    }

    function ForceCancel(): Queue {
      if terminalPushed then this else Queue([CANCELLED], true)
    }
  }

  // ----- the whole system -----

  /** What the interpreter thread is doing: nothing, blocked in `next_event`, or past its deadline
      with the task already removed but the queue not yet closed. */
  datatype Control = Idle | Waiting(handle: nat, token: nat) | Expired(handle: nat, token: nat)

  /** Tokens number the queues in order of issue; `live` are those still to be freed. The last three
      fields record history: the tokens freed, the host's accepted pushes by token, and what
      `next_event` has returned by handle since its issue. */
  datatype State = State(
    queues: seq<Queue>,
    pending: map<nat, nat>,
    nextId: nat,
    control: Control,
    dropped: bool,
    live: seq<nat>,
    freed: seq<nat>,
    accepted: seq<seq<Event>>,
    returned: map<nat, seq<Event>>)

  datatype Step =
    | Start
    | HostPush(token: nat, event: Event)
    | Begin(handle: nat)
    | Wake
    | Timeout
    | Close
    | Cancel(handle: nat)
    | Drop
    | Free

  const INITIAL := State([], map[], 1, Idle, false, [], [], [], map[])

  function Returned(s: State, h: nat): seq<Event> {
    if h in s.returned then s.returned[h] else []
  }

  function Give(s: State, h: nat, e: Event): State {
    s.(returned := s.returned[h := Returned(s, h) + [e]])
  }

  ghost predicate Enabled(s: State, step: Step) {
    s.dropped == step.Free? &&
    match step
    case Start => s.control.Idle?
    case HostPush(token, _) => token < |s.queues| && |s.accepted| == |s.queues|
    case Begin(_) => s.control.Idle?
    case Wake => s.control.Waiting? && s.control.token < |s.queues| && s.queues[s.control.token].events != []
    case Timeout => s.control.Waiting? && s.control.token < |s.queues| && s.queues[s.control.token].events == []
    case Close => s.control.Expired? && s.control.token < |s.queues|
    case Cancel(h) => s.control.Idle? && (h in s.pending ==> s.pending[h] < |s.queues|)
    case Drop => s.control.Idle?
    case Free => s.live != []
  }

  ghost function Apply(s: State, step: Step): State
    requires Enabled(s, step)
  {
    match step
    case Start =>
      s.(queues := s.queues + [Queue([], false)], accepted := s.accepted + [[]], live := s.live + [|s.queues|],
         pending := s.pending[s.nextId := |s.queues|], nextId := s.nextId + 1,
         returned := s.returned[s.nextId := []])
    case HostPush(token, e) =>
      if s.queues[token].terminalPushed then s
      else s.(queues := s.queues[token := s.queues[token].Push(e)],
              accepted := s.accepted[token := s.accepted[token] + [e]])
    case Begin(h) => if h in s.pending then s.(control := Waiting(h, s.pending[h])) else Give(s, h, SENTINEL)
    case Wake =>
      var Waiting(h, token) := s.control;
      var q := s.queues[token];
      var e := q.events[0];
      Give(s.(queues := s.queues[token := q.(events := q.events[1..])],
              pending := if e.IsTerminal() then s.pending - {h} else s.pending,
              control := Idle), h, e)
    case Timeout => s.(pending := s.pending - {s.control.handle}, control := Expired(s.control.handle, s.control.token))
    case Close =>
      var Expired(h, token) := s.control;
      Give(s.(queues := s.queues[token := s.queues[token].Push(TIMED_OUT)], control := Idle), h, TIMED_OUT)
    case Cancel(h) =>
      if h !in s.pending then s
      else s.(queues := s.queues[s.pending[h] := s.queues[s.pending[h]].ForceCancel()])
    case Drop => s.(dropped := true)
    case Free => s.(live := s.live[1..], freed := s.freed + [s.live[0]])
  }

  /** The states a run passes through. */
  ghost predicate IsRun(states: seq<State>, steps: seq<Step>) {
    && |states| == |steps| + 1
    && states[0] == INITIAL
    && forall i: nat | i < |steps| :: Enabled(states[i], steps[i]) && states[i + 1] == Apply(states[i], steps[i])
  }

  // ----- what every run keeps -----

  ghost predicate NoTerminal(es: seq<Event>) {
    forall e <- es :: !e.IsTerminal()
  }

  /** A queue admits at most one terminal event, and nothing after it. */
  ghost predicate OneTerminal(es: seq<Event>) {
    es == [] || NoTerminal(es[..|es| - 1])
  }

  ghost predicate AllSentinels(es: seq<Event>) {
    forall e <- es :: e == SENTINEL
  }

  /** A dead handle's history: the first `k` accepted pushes, one terminal event, then sentinels. */
  ghost predicate Ended(given: seq<Event>, accepted: seq<Event>, k: nat) {
    && k < |given| && k <= |accepted|
    && given[..k] == accepted[..k] && NoTerminal(given[..k])
    && (given[k] == CANCELLED || given[k] == TIMED_OUT || (k < |accepted| && given[k] == accepted[k] && given[k].IsTerminal()))
    && AllSentinels(given[k + 1..])
  }

  /** A live task: nothing is lost unless it was cancelled, and a closed queue is never empty. */
  ghost predicate PendingOk(q: Queue, given: seq<Event>, accepted: seq<Event>) {
    && NoTerminal(given)
    && (|| (!q.terminalPushed && accepted == given + q.events && NoTerminal(accepted))
        || (q.terminalPushed && q.events != [] && accepted == given + q.events
            && accepted[|accepted| - 1].IsTerminal() && NoTerminal(accepted[..|accepted| - 1]))
        || (q.terminalPushed && q.events == [CANCELLED] && given <= accepted && NoTerminal(accepted)))
  }

  ghost predicate TaskOk(s: State, token: nat)
    requires token < |s.queues| == |s.accepted|
  {
    var h, q, accepted := token + 1, s.queues[token], s.accepted[token];
    var given := Returned(s, h);
    && OneTerminal(accepted)
    && (!q.terminalPushed ==> NoTerminal(accepted))
    && if h in s.pending then PendingOk(q, given, accepted)
       else if s.control == Expired(h, token) then given <= accepted && NoTerminal(given)
       else q.terminalPushed && exists k: nat :: Ended(given, accepted, k)
  }

  /** A handle that was never issued only ever yields sentinels. */
  ghost predicate StrayOk(s: State, h: nat) {
    1 <= h <= |s.queues| || AllSentinels(Returned(s, h))
  }

  /** Every token issued is either live or freed, and the first ones are freed first. */
  ghost predicate TokensOk(s: State) {
    s.freed + s.live == seq(|s.queues|, i => i) && (!s.dropped ==> s.freed == [])
  }

  ghost predicate Inv(s: State) {
    && |s.accepted| == |s.queues|
    && s.nextId == |s.queues| + 1
    && (forall h <- s.pending :: 1 <= h <= |s.queues| && s.pending[h] == h - 1)
    && (s.control.Waiting? ==> s.control.handle in s.pending && s.control.token == s.control.handle - 1)
    && (s.control.Expired? ==> s.control.token == s.control.handle - 1 < |s.queues| && s.control.handle !in s.pending)
    && (forall token: nat | token < |s.queues| :: TaskOk(s, token))
    && (forall h: nat :: StrayOk(s, h))
    && TokensOk(s)
  }

  // ----- every step keeps it -----

  /** Tasks a step does not touch stay as they were. */
  ghost predicate SameTask(s: State, t: State, token: nat) {
    && token < |s.queues| == |s.accepted| && token < |t.queues| == |t.accepted|
    && s.queues[token] == t.queues[token] && s.accepted[token] == t.accepted[token]
    && Returned(s, token + 1) == Returned(t, token + 1)
    && (token + 1 in s.pending <==> token + 1 in t.pending)
    && (s.control == Expired(token + 1, token) <==> t.control == Expired(token + 1, token))
  }

  lemma {:induction false} OthersKept(s: State, t: State, changed: nat)
    requires Inv(s) && |t.queues| == |t.accepted| == |s.queues|
    requires forall token: nat | token < |s.queues| && token != changed :: SameTask(s, t, token)
    requires changed < |s.queues| ==> TaskOk(t, changed)
    ensures forall token: nat | token < |t.queues| :: TaskOk(t, token)
  {
    forall token: nat | token < |t.queues|
      ensures TaskOk(t, token)
    {
      assert TaskOk(s, token);
      if token != changed {
        assert SameTask(s, t, token);
      }
    }
  }

  /** Only the history of `changed` may differ. */
  lemma {:induction false} StraysKept(s: State, t: State, changed: nat)
    requires forall h: nat :: StrayOk(s, h)
    requires |s.queues| <= |t.queues| && (forall h: nat | h != changed :: Returned(s, h) == Returned(t, h))
    requires StrayOk(t, changed)
    ensures forall h: nat :: StrayOk(t, h)
  {
    forall h: nat
      ensures StrayOk(t, h)
    {
      assert StrayOk(s, h);
    }
  }

  lemma {:induction false} TokenIssued(s: State, t: State)
    requires TokensOk(s) && t.freed == s.freed && t.live == s.live + [|s.queues|] && |t.queues| == |s.queues| + 1
    requires t.dropped == s.dropped
    ensures TokensOk(t)
  {
    assert t.freed + t.live == s.freed + s.live + [|s.queues|];
  }

  lemma {:induction false} TokenFreed(s: State, t: State)
    requires TokensOk(s) && s.live != [] && t.freed == s.freed + [s.live[0]] && t.live == s.live[1..]
    requires |t.queues| == |s.queues| && t.dropped
    ensures TokensOk(t)
  {
    assert t.freed + t.live == s.freed + s.live;
  }

  lemma {:induction false} StartKeeps(s: State)
    requires Inv(s) && Enabled(s, Start)
    ensures Inv(Apply(s, Start))
  {
    var t := Apply(s, Start);
    TokenIssued(s, t);
    StraysKept(s, t, s.nextId);
    forall token: nat | token < |t.queues|
      ensures TaskOk(t, token)
    {
      if token < |s.queues| {
        assert TaskOk(s, token) && SameTask(s, t, token);
      }
    }
  }

  lemma {:induction false} HostPushKeeps(s: State, token: nat, e: Event)
    requires Inv(s) && Enabled(s, HostPush(token, e))
    ensures Inv(Apply(s, HostPush(token, e)))
  {
    var t := Apply(s, HostPush(token, e));
    assert TaskOk(s, token);
    if !s.queues[token].terminalPushed {
      assert StrayOk(s, 0);
      StraysKept(s, t, 0);
      OthersKept(s, t, token);
    }
  }

  lemma {:induction false} BeginKeeps(s: State, h: nat)
    requires Inv(s) && Enabled(s, Begin(h))
    ensures Inv(Apply(s, Begin(h)))
  {
    var t := Apply(s, Begin(h));
    assert StrayOk(s, h);
    StraysKept(s, t, h);
    if h in s.pending || h == 0 || h > |s.queues| {
      OthersKept(s, t, |s.queues|);
    } else {
      assert TaskOk(s, h - 1);
      var given, accepted := Returned(s, h), s.accepted[h - 1];
      var k: nat :| Ended(given, accepted, k);
      SentinelKeepsEnded(given, accepted, k);
      OthersKept(s, t, h - 1);
    }
  }

  lemma {:induction false} SentinelKeepsEnded(given: seq<Event>, accepted: seq<Event>, k: nat)
    requires Ended(given, accepted, k)
    ensures Ended(given + [SENTINEL], accepted, k)
  {
    var after := given + [SENTINEL];
    assert after[..k] == given[..k];
    assert after[k + 1..] == given[k + 1..] + [SENTINEL];
  }

  /** Popping the front event of a live task's queue: it stays live, or ends with that event. */
  lemma {:induction false} PopKeeps(q: Queue, given: seq<Event>, accepted: seq<Event>)
    requires PendingOk(q, given, accepted) && q.events != []
    ensures var e, after := q.events[0], given + [q.events[0]];
            if e.IsTerminal() then q.terminalPushed && Ended(after, accepted, |given|)
            else PendingOk(q.(events := q.events[1..]), after, accepted)
  {
    var e, k := q.events[0], |given|;
    var after := given + [e];
    assert after[..k] == given && after[k + 1..] == [];
    assert q.events == [e] + q.events[1..];
    if accepted == given + q.events {
      assert accepted[k] == e && accepted[..k] == given;
      assert accepted == after + q.events[1..];
      assert q.terminalPushed && k < |accepted| - 1 ==> accepted[k] in accepted[..|accepted| - 1];
    }
  }

  lemma {:induction false} WakeKeeps(s: State)
    requires Inv(s) && Enabled(s, Wake)
    ensures Inv(Apply(s, Wake))
  {
    var token := s.control.token;
    var t, e := Apply(s, Wake), s.queues[token].events[0];
    WakeMoves(s, t, token, e);
    assert TaskOk(s, token);
    PoppedTaskOk(s, t, token, e);
    StraysKept(s, t, token + 1);
    OthersKept(s, t, token);
  }

  /** Waking gives out the front event and leaves all other tasks alone. */
  lemma {:induction false} WakeMoves(s: State, t: State, token: nat, e: Event)
    requires Inv(s) && Enabled(s, Wake) && token == s.control.token && e == s.queues[token].events[0] && t == Apply(s, Wake)
    ensures |t.queues| == |t.accepted| == |s.queues| && t.control == Idle && t.accepted == s.accepted
    ensures t.queues[token] == s.queues[token].(events := s.queues[token].events[1..])
    ensures t.pending == if e.IsTerminal() then s.pending - {token + 1} else s.pending
    ensures Returned(t, token + 1) == Returned(s, token + 1) + [e]
    ensures forall h: nat | h != token + 1 :: Returned(s, h) == Returned(t, h)
    ensures forall other: nat | other < |s.queues| && other != token :: SameTask(s, t, other)
  {
  }

  lemma {:induction false} PoppedTaskOk(s: State, t: State, token: nat, e: Event)
    requires token < |s.queues| == |s.accepted| && token < |t.queues| == |t.accepted| && TaskOk(s, token)
    requires token + 1 in s.pending && s.queues[token].events != [] && e == s.queues[token].events[0]
    requires t.accepted[token] == s.accepted[token] && t.control == Idle && Returned(t, token + 1) == Returned(s, token + 1) + [e]
    requires t.queues[token] == s.queues[token].(events := s.queues[token].events[1..])
    requires token + 1 in t.pending <==> !e.IsTerminal()
    ensures TaskOk(t, token)
  {
    var given := Returned(s, token + 1);
    PopKeeps(s.queues[token], given, s.accepted[token]);
    if e.IsTerminal() {
      assert Ended(Returned(t, token + 1), t.accepted[token], |given|);
    }
  }

  lemma {:induction false} TimeoutKeeps(s: State)
    requires Inv(s) && Enabled(s, Timeout)
    ensures Inv(Apply(s, Timeout))
  {
    var t := Apply(s, Timeout);
    var token := s.control.token;
    assert StrayOk(s, 0);
    StraysKept(s, t, 0);
    assert TaskOk(s, token);
    assert Returned(t, token + 1) <= t.accepted[token] && TaskOk(t, token);
    OthersKept(s, t, token);
  }

  lemma {:induction false} CloseKeeps(s: State)
    requires Inv(s) && Enabled(s, Close)
    ensures Inv(Apply(s, Close))
  {
    var t := Apply(s, Close);
    var Expired(h, token) := s.control;
    StraysKept(s, t, h);
    assert TaskOk(s, token) && Returned(t, h) == Returned(s, h) + [TIMED_OUT];
    ClosedTaskOk(s, t, token);
    assert forall other: nat | other < |s.queues| && other != token :: SameTask(s, t, other);
    OthersKept(s, t, token);
  }

  lemma {:induction false} ClosedTaskOk(s: State, t: State, token: nat)
    requires token < |s.queues| == |s.accepted| && token < |t.queues| == |t.accepted| && TaskOk(s, token)
    requires s.control == Expired(token + 1, token) && token + 1 !in s.pending && token + 1 !in t.pending && t.control == Idle
    requires t.accepted[token] == s.accepted[token] && t.queues[token].terminalPushed
    requires Returned(t, token + 1) == Returned(s, token + 1) + [TIMED_OUT]
    ensures TaskOk(t, token)
  {
    var given := Returned(s, token + 1);
    var after := given + [TIMED_OUT];
    assert after[..|given|] == given && after[|given| + 1..] == [];
    assert Ended(after, s.accepted[token], |given|);
  }

  lemma {:induction false} CancelKeeps(s: State, h: nat)
    requires Inv(s) && Enabled(s, Cancel(h))
    ensures Inv(Apply(s, Cancel(h)))
  {
    var t := Apply(s, Cancel(h));
    if h in s.pending {
      assert StrayOk(s, 0);
      StraysKept(s, t, 0);
      assert TaskOk(s, h - 1);
      OthersKept(s, t, h - 1);
    }
  }

  lemma {:induction false} StepKeeps(s: State, step: Step)
    requires Inv(s) && Enabled(s, step)
    ensures Inv(Apply(s, step))
  {
    match step
    case Start => StartKeeps(s);
    case HostPush(token, e) => HostPushKeeps(s, token, e);
    case Begin(h) => BeginKeeps(s, h);
    case Wake => WakeKeeps(s);
    case Timeout => TimeoutKeeps(s);
    case Close => CloseKeeps(s);
    case Cancel(h) => CancelKeeps(s, h);
    case Drop => NothingMoves(s, Apply(s, Drop));
    case Free =>
      TokenFreed(s, Apply(s, Free));
      NothingMoves(s, Apply(s, Free));
  }

  /** A step that touches neither queues nor handles. */
  lemma {:induction false} NothingMoves(s: State, t: State)
    requires Inv(s) && TokensOk(t)
    requires t == s.(dropped := t.dropped, live := t.live, freed := t.freed)
    ensures Inv(t)
  {
    assert StrayOk(s, 0);
    StraysKept(s, t, 0);
    OthersKept(s, t, |s.queues|);
  }

  lemma {:induction false} RunKeeps(states: seq<State>, steps: seq<Step>, i: nat)
    requires IsRun(states, steps) && i < |states|
    ensures Inv(states[i])
    decreases i
  {
    if i == 0 {
      forall h: nat
        ensures StrayOk(INITIAL, h)
      {
      }
    } else {
      RunKeeps(states, steps, i - 1);
      StepKeeps(states[i - 1], steps[i - 1]);
    }
  }

  // ----- what that means for a task -----

  /** What a handle has been given: a prefix of the accepted pushes with no terminal among them, or
      such a prefix, one terminal event (the host's next one, cancelled or timed out), and sentinels. */
  ghost predicate Delivered(given: seq<Event>, accepted: seq<Event>) {
    (given <= accepted && NoTerminal(given)) || exists k: nat :: Ended(given, accepted, k)
  }

  /** In every run, at every moment, every issued handle has been served in order. */
  lemma {:induction false} RunDelivers(states: seq<State>, steps: seq<Step>, i: nat, h: nat)
    requires IsRun(states, steps) && i < |states| && 1 <= h <= |states[i].queues|
    ensures |states[i].accepted| == |states[i].queues|
    ensures Delivered(Returned(states[i], h), states[i].accepted[h - 1])
  {
    RunKeeps(states, steps, i);
    assert TaskOk(states[i], h - 1);
  }

  /** A live task whose terminal event is queued never leaves the interpreter blocked. */
  lemma {:induction false} ClosedQueueNeverBlocks(states: seq<State>, steps: seq<Step>, i: nat, h: nat)
    requires IsRun(states, steps) && i < |states| && h in states[i].pending
    ensures states[i].pending[h] < |states[i].queues|
    ensures states[i].queues[states[i].pending[h]].terminalPushed ==> states[i].queues[states[i].pending[h]].events != []
  {
    RunKeeps(states, steps, i);
    assert TaskOk(states[i], h - 1);
  }

  /** Once a handle is dead, host pushes on its token change nothing. */
  lemma {:induction false} LatePushIsIgnored(states: seq<State>, steps: seq<Step>, i: nat, token: nat, e: Event)
    requires IsRun(states, steps) && i < |states| && Enabled(states[i], HostPush(token, e))
    requires token + 1 !in states[i].pending && states[i].control != Expired(token + 1, token)
    ensures Apply(states[i], HostPush(token, e)) == states[i]
  {
    RunKeeps(states, steps, i);
    assert TaskOk(states[i], token);
  }

  lemma {:induction false} TerminalNotBefore(es: seq<Event>, n: nat, k: nat)
    requires n < |es| && es[n].IsTerminal() && k <= |es| && NoTerminal(es[..k])
    ensures k <= n
  {
    var prefix := es[..k];
    assert forall j: nat | j < |prefix| :: prefix[j] in prefix && prefix[j] == es[j];
  }

  /** A handle that ended with the host's own terminal event was given everything the host pushed. */
  lemma {:induction false} AllGiven(s: State, h: nat, k: nat)
    requires Inv(s) && 1 <= h <= |s.queues| && s.control != Expired(h, h - 1)
    requires var given := Returned(s, h);
             k < |given| && given[k].IsTerminal() && given[k] != CANCELLED && given[k] != TIMED_OUT && NoTerminal(given[..k])
    ensures Returned(s, h)[..k + 1] == s.accepted[h - 1] && AllSentinels(Returned(s, h)[k + 1..])
  {
    assert TaskOk(s, h - 1);
    var given, accepted := Returned(s, h), s.accepted[h - 1];
    assert given[k] in given;
    var n: nat :| Ended(given, accepted, n);
    HostEnds(given, accepted, k, n);
  }

  lemma {:induction false} HostEnds(given: seq<Event>, accepted: seq<Event>, k: nat, n: nat)
    requires Ended(given, accepted, n) && OneTerminal(accepted) && k < |given| && NoTerminal(given[..k])
    requires given[k].IsTerminal() && given[k] != CANCELLED && given[k] != TIMED_OUT
    ensures given[..k + 1] == accepted && AllSentinels(given[k + 1..])
  {
    TerminalNotBefore(given, k, n);
    TerminalNotBefore(given, n, k);
    TerminalNotBefore(accepted, k, |accepted| - 1);
    assert given[..k + 1] == given[..k] + [given[k]];
  }

  lemma {:induction false} NothingLost(states: seq<State>, steps: seq<Step>, i: nat, h: nat, k: nat)
    requires IsRun(states, steps) && i < |states| && 1 <= h <= |states[i].queues| == |states[i].accepted|
    requires states[i].control != Expired(h, h - 1)
    requires var given := Returned(states[i], h);
             k < |given| && given[k].IsTerminal() && given[k] != CANCELLED && given[k] != TIMED_OUT && NoTerminal(given[..k])
    ensures Returned(states[i], h)[..k + 1] == states[i].accepted[h - 1]
    ensures AllSentinels(Returned(states[i], h)[k + 1..])
  {
    RunKeeps(states, steps, i);
    AllGiven(states[i], h, k);
  }

  /** At every moment of a run every token ever issued is either live or freed, never both and never
      twice: live as long as the handler is not dropped, so that a host push finds its queue, and
      freed once nothing is left to free. */
  lemma {:induction false} TokensFreedOnce(states: seq<State>, steps: seq<Step>, i: nat, token: nat)
    requires IsRun(states, steps) && i < |states| && token < |states[i].queues|
    ensures multiset(states[i].live)[token] + multiset(states[i].freed)[token] == 1
    ensures !states[i].dropped ==> token in states[i].live
    ensures states[i].live == [] ==> token in states[i].freed
  {
    RunKeeps(states, steps, i);
    var s := states[i];
    OnceInParts(s.freed, s.live, |s.queues|, token);
  }

  /** Two halves of a sequence of numbers hold each of them once. */
  lemma {:induction false} OnceInParts(a: seq<nat>, b: seq<nat>, n: nat, token: nat)
    requires a + b == seq(n, i => i) && token < n
    ensures multiset(a)[token] + multiset(b)[token] == 1
    ensures token in a || token in b
  {
    var all := a + b;
    var before, after := all[..token], all[token + 1..];
    assert all == before + [token] + after;
    assert token !in multiset(before) && token !in multiset(after);
    assert multiset(all) == multiset(before) + multiset([token]) + multiset(after);
    assert multiset(all) == multiset(a) + multiset(b);
    assert multiset(all)[token] == 1;
    assert all[token] == if token < |a| then a[token] else b[token - |a|];
  }

  /** Freeing goes on until nothing is left: at most one step for each token of the run. */
  lemma {:induction false} FreeingEnds(states: seq<State>, steps: seq<Step>, i: nat, j: nat)
    requires IsRun(states, steps) && i <= j < |states| && states[i].dropped
    ensures states[j].dropped && |states[j].queues| == |states[i].queues|
    ensures |states[j].live| + (j - i) == |states[i].live| && states[i].freed <= states[j].freed
    decreases j
  {
    if i < j {
      FreeingEnds(states, steps, i, j - 1);
      var k: nat := j - 1;
      assert Enabled(states[k], steps[k]) && states[k + 1] == Apply(states[k], steps[k]);
      assert states[k].freed <= states[j].freed;
    }
  }

  /** A cancelled live task: its buffered events are gone and the queue is closed. */
  ghost predicate CancelPending(s: State, h: nat) {
    h in s.pending && s.pending[h] < |s.queues| && s.queues[s.pending[h]] == Queue([CANCELLED], true)
  }

  /** Cancelling a live handle whose terminal has not arrived makes `cancelled` its next event,
      whatever other steps come in between. */
  lemma {:induction false} CancelIsNext(s: State, step: Step, h: nat)
    requires Inv(s) && Enabled(s, step)
    ensures step == Cancel(h) && h in s.pending && !s.queues[h - 1].terminalPushed ==> CancelPending(Apply(s, step), h)
    ensures CancelPending(s, h) ==>
              if step.Wake? && s.control.handle == h
              then Returned(Apply(s, step), h) == Returned(s, h) + [CANCELLED] && h !in Apply(s, step).pending
              else CancelPending(Apply(s, step), h) && Returned(Apply(s, step), h) == Returned(s, h)
  {
    if CancelPending(s, h) && step.Start? {
      assert h != s.nextId;
    }
  }

  /** What a handle has been given is never taken back. */
  lemma {:induction false} GivenGrows(s: State, step: Step, h: nat)
    requires Inv(s) && Enabled(s, step) && 1 <= h <= |s.queues|
    ensures Returned(s, h) <= Returned(Apply(s, step), h) && |s.queues| <= |Apply(s, step).queues|
  {
  }

  /** In every run, from a cancel of a live handle on, the handle is either still waiting to be polled
      or the cancelled event is what it was given next. */
  lemma {:induction false} CancelHolds(states: seq<State>, steps: seq<Step>, i: nat, j: nat, h: nat)
    requires IsRun(states, steps) && i < j < |states| && steps[i] == Cancel(h)
    requires h in states[i].pending && states[i].pending[h] < |states[i].queues|
    requires !states[i].queues[states[i].pending[h]].terminalPushed
    ensures |states[j].queues| >= h
    ensures || (CancelPending(states[j], h) && Returned(states[j], h) == Returned(states[i], h))
            || Returned(states[i], h) + [CANCELLED] <= Returned(states[j], h)
    decreases j
  {
    RunKeeps(states, steps, i);
    RunKeeps(states, steps, j - 1);
    if j > i + 1 {
      CancelHolds(states, steps, i, j - 1, h);
    }
    CancelIsNext(states[j - 1], steps[j - 1], h);
    GivenGrows(states[j - 1], steps[j - 1], h);
  }
}
