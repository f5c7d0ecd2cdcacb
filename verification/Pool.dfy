/**
 * One pooled IMAP connection: callers queue behind each other on a chain of promises, and every interleaving of calls,
 * connects, callbacks and failures runs the callbacks one at a time and in call order.
 */
module Pool {
  import opened Text

  /** How far a call has come: waiting for the one before, for the connection, in its callback, or settled. */
  datatype Status = Waiting | Connecting | Running | Settled(ok: bool)

  /** A call: the promise it was chained to and its own state. */
  datatype Promise = Promise(after: Option<nat>, status: Status)

  /**
   * `calls` holds the promises made so far and `busy` is the chain: the one made last, or None for the resolved promise it
   * starts with. `usable` says whether the current client can be used, and `connecting` whether a connect is recorded in the
   * field of that name. `dialing` counts the connects in flight; `started` lists the calls in the order their callbacks began.
   */
  datatype Connection = Connection(
    calls: seq<Promise>, busy: Option<nat>, usable: bool, connecting: bool, dialing: nat, started: seq<nat>)

  const NEW := Connection([], None, false, false, 0, [])

  datatype Event =
    | Call                       // run() appends to the chain
    | Proceed(i: nat)            // the promise call i waits for has settled, and its body begins
    | Connected(i: nat, ok: bool) // the connect call i awaits ends
    | Finished(i: nat, ok: bool) // the callback of call i ends, well or not
    | Dropped                    // the server or the sweeper closes the connection

  /** Whether the promise has settled; a failure counts, because the chain swallows it. */
  predicate Settles(c: Connection, p: Option<nat>) {
    p.Some? ==> p.value < |c.calls| && c.calls[p.value].status.Settled?
  }

  /** A call's body begins once the promise it was chained to has settled. */
  predicate TurnOf(c: Connection, i: nat) {
    i < |c.calls| && c.calls[i].status.Waiting? && Settles(c, c.calls[i].after)
  }

  predicate Enabled(c: Connection, e: Event) {
    match e
    case Call => true
    case Proceed(i) => TurnOf(c, i)
    case Connected(i, _) => i < |c.calls| && c.calls[i].status.Connecting? && c.dialing > 0
    case Finished(i, _) => i < |c.calls| && c.calls[i].status.Running?
    case Dropped => true
  }

  function With(c: Connection, i: nat, status: Status): Connection
    requires i < |c.calls|
  {
    c.(calls := c.calls[i := c.calls[i].(status := status)])
  }

  function Run(c: Connection, i: nat): Connection
    requires i < |c.calls|
  {
    With(c, i, Running).(started := c.started + [i])
  }

  function Step(c: Connection, e: Event): Connection
    requires Enabled(c, e)
  {
    match e
    case Call => c.(calls := c.calls + [Promise(c.busy, Waiting)], busy := Some(|c.calls|))
    case Proceed(i) =>
      if c.usable then Run(c, i)
      else if c.connecting then With(c, i, Connecting)
      else With(c, i, Connecting).(connecting := true, dialing := c.dialing + 1)
    case Connected(i, ok) =>
      var idle := c.(connecting := false, dialing := c.dialing - 1);
      if ok then Run(idle.(usable := true), i) else With(idle, i, Settled(false))
    case Finished(i, ok) => With(c, i, Settled(ok))
    case Dropped => c.(usable := false)
  }

  predicate Active(s: Status) {
    s.Connecting? || s.Running?
  }

  /** The promise a call at place `i` hangs on: the call before it. */
  function Before(i: nat): Option<nat> {
    if i == 0 then None else Some(i - 1)
  }

  /**
   * Every call is chained to the one before it. The calls before `at` are settled, those after it wait; only the one at
   * `at` may be under way.
   */
  ghost predicate OneAtATime(c: Connection, at: nat) {
    && at <= |c.calls|
    && c.busy == Before(|c.calls|)
    && (forall i :: 0 <= i < |c.calls| ==> c.calls[i].after == Before(i))
    && (forall i :: 0 <= i < at ==> c.calls[i].status.Settled?)
    && (forall i :: at < i < |c.calls| ==> c.calls[i].status.Waiting?)
    && (at < |c.calls| ==> !c.calls[at].status.Settled?)
    && (c.connecting <==> at < |c.calls| && c.calls[at].status.Connecting?)
    && c.dialing == (if c.connecting then 1 else 0)
    && Ascending(c.started)
    && (forall k :: 0 <= k < |c.started| ==> c.started[k] < at || (c.started[k] == at < |c.calls| && c.calls[at].status.Running?))
  }

  ghost predicate Ascending(s: seq<nat>) {
    forall i, j :: 0 <= i < j < |s| ==> s[i] < s[j]
  }

  lemma StepKeepsOneAtATime(c: Connection, e: Event, at: nat) returns (next: nat)
    requires OneAtATime(c, at) && Enabled(c, e)
    ensures OneAtATime(Step(c, e), next) && at <= next
  {
    next := at;
    match e
    case Call =>
    case Proceed(i) =>
      TurnIsNext(c, at, i);
    case Connected(i, ok) =>
      if !ok {
        next := at + 1;
      }
    case Finished(i, ok) => next := at + 1;
    case Dropped =>
  }

  /** Because the promises form one chain, the only call whose turn it can be is the first that is not settled. */
  lemma TurnIsNext(c: Connection, at: nat, i: nat)
    requires OneAtATime(c, at) && TurnOf(c, i)
    ensures i == at
  {
  }

  ghost predicate IsRun(events: seq<Event>, states: seq<Connection>) {
    && |states| == |events| + 1 && states[0] == NEW
    && forall k :: 0 <= k < |events| ==> Enabled(states[k], events[k]) && states[k + 1] == Step(states[k], events[k])
  }

  lemma {:induction false} RunKeepsOneAtATime(events: seq<Event>, states: seq<Connection>, n: nat) returns (at: nat)
    requires IsRun(events, states) && n < |states|
    ensures OneAtATime(states[n], at)
  {
    if n == 0 {
      at := 0;
    } else {
      var before := RunKeepsOneAtATime(events, states, n - 1);
      assert states[n] == Step(states[n - 1], events[n - 1]);
      at := StepKeepsOneAtATime(states[n - 1], events[n - 1], before);
    }
  }

  /**
   * In every interleaving a call gets past waiting only when all calls before it are settled, so at most one is connecting
   * or in its callback; callbacks begin in call order, and at most one connect is in flight.
   */
  lemma CallbacksNeverOverlap(events: seq<Event>, states: seq<Connection>, n: nat)
    requires IsRun(events, states) && n < |states|
    ensures forall i, j :: 0 <= i < j < |states[n].calls| && !states[n].calls[j].status.Waiting? ==> states[n].calls[i].status.Settled?
    ensures forall i, j :: 0 <= i < j < |states[n].calls| ==> !(Active(states[n].calls[i].status) && Active(states[n].calls[j].status))
    ensures Ascending(states[n].started) && states[n].dialing <= 1
  {
    var at := RunKeepsOneAtATime(events, states, n);
  }

  /** A step of call `i` or of one before it, with a good outcome. */
  predicate StepsUpTo(e: Event, i: nat) {
    (e.Proceed? || (e.Connected? && e.ok) || (e.Finished? && e.ok)) && e.i <= i
  }

  /** As long as calls wait, one of them can go on: neither a failed connect nor a failed callback blocks the others. */
  lemma NoCallIsStuck(events: seq<Event>, states: seq<Connection>, n: nat, i: nat)
    requires IsRun(events, states) && n < |states| && i < |states[n].calls| && !states[n].calls[i].status.Settled?
    ensures exists e :: StepsUpTo(e, i) && Enabled(states[n], e)
  {
    var at := RunKeepsOneAtATime(events, states, n);
    var c := states[n];
    var e := if c.calls[at].status.Waiting? then Proceed(at) else if c.calls[at].status.Connecting? then Connected(at, true) else Finished(at, true);
    assert StepsUpTo(e, i) && Enabled(c, e);
  }

  /** Settling a call, whatever the outcome, is what lets the next one begin. */
  lemma FailureFreesTheNext(c: Connection, at: nat, e: Event)
    requires OneAtATime(c, at) && Enabled(c, e) && (e == Finished(at, false) || e == Connected(at, false)) && at + 1 < |c.calls|
    ensures Enabled(Step(c, e), Proceed(at + 1))
  {
  }
}
