/** The circuit breaker of one connector under any interleaving of calls, and the polite fetch on top of it. */
module Breaker {
  import opened Wrappers

  const THRESHOLD := 5
  const COOLDOWN_MS := 30_000

  datatype Mode = Closed | Open | HalfOpen

  // A call asks to be let through, or records its outcome.
  datatype Event = Ask(call: nat, at: int) | Succeed(call: nat) | Fail(call: nat, at: int)

  datatype State = State(mode: Mode, failures: nat, openedAt: int)

  const START := State(Closed, 0, 0)

  predicate Admits(s: State, at: int) {
    s.mode != Open || at - s.openedAt >= COOLDOWN_MS
  }

  function Step(s: State, e: Event): State {
    match e
    case Ask(_, at) => if s.mode == Open && at - s.openedAt >= COOLDOWN_MS then s.(mode := HalfOpen) else s
    case Succeed(_) => s.(failures := 0, mode := Closed)
    case Fail(_, at) =>
      if s.mode == HalfOpen || s.failures + 1 >= THRESHOLD then State(Open, s.failures + 1, at)
      else s.(failures := s.failures + 1)
  }

  function Run(events: seq<Event>): State {
    if events == [] then START else Step(Run(events[..|events| - 1]), events[|events| - 1])
  }

  // The failures recorded since the last success.
  function FailureRun(events: seq<Event>): nat {
    if events == [] then 0
    else
      var n := |events| - 1;
      match events[n]
      case Ask(_, _) => FailureRun(events[..n])
      case Succeed(_) => 0
      case Fail(_, _) => FailureRun(events[..n]) + 1
  }

  // When the last failure was recorded.
  function LastFailure(events: seq<Event>): Option<int> {
    if events == [] then None
    else if events[|events| - 1].Fail? then Some(events[|events| - 1].at)
    else LastFailure(events[..|events| - 1])
  }

  // The clock never runs back.
  ghost predicate Monotone(events: seq<Event>) {
    forall i, j | 0 <= i < j < |events| && !events[i].Succeed? && !events[j].Succeed? :: events[i].at <= events[j].at
  }

  // Over every interleaving: the counter is the length of the trailing failure run, the breaker is closed exactly
  // when that is below the threshold, and otherwise it remembers the time of the last failure.
  lemma {:induction false} RunMeaning(events: seq<Event>)
    ensures var s := Run(events);
      && s.failures == FailureRun(events)
      && (s.mode == Closed <==> FailureRun(events) < 5)
      && (s.mode != Closed ==> LastFailure(events) == Some(s.openedAt))
  {
    if events != [] {
      RunMeaning(events[..|events| - 1]);
    }
  }

  // Half-open means that a call has been let through a cooldown or more after the last failure.
  lemma {:induction false} HalfOpenMeaning(events: seq<Event>)
    requires Run(events).mode == HalfOpen
    ensures exists i :: 0 <= i < |events| && events[i].Ask? && events[i].at - Run(events).openedAt >= COOLDOWN_MS
  {
    var n := |events| - 1;
    var s := Run(events[..n]);
    if s.mode == HalfOpen && events[n].Ask? {
      HalfOpenMeaning(events[..n]);
      var i :| 0 <= i < n && events[..n][i].Ask? && events[..n][i].at - s.openedAt >= COOLDOWN_MS;
      assert events[i].Ask?;
    } else {
      assert events[n].Ask?;
    }
  }

  predicate Cooled(events: seq<Event>, at: int) {
    LastFailure(events).Some? && at - LastFailure(events).value >= COOLDOWN_MS
  }

  lemma AdmitsByRun(events: seq<Event>, call: nat, at: int)
    requires Monotone(events + [Ask(call, at)])
    ensures Admits(Run(events), at) <==>
            FailureRun(events) < THRESHOLD || Cooled(events, at)
  {
    RunMeaning(events);
    if Run(events).mode == HalfOpen {
      HalfOpenMeaning(events);
      var all := events + [Ask(call, at)];
      var i :| 0 <= i < |events| && events[i].Ask? && events[i].at - Run(events).openedAt >= COOLDOWN_MS;
      assert all[i] == events[i] && all[|events|] == Ask(call, at);
    }
  }

  // The failures that no success has followed.
  ghost function Standing(events: seq<Event>): set<nat> {
    set i | 0 <= i < |events| && events[i].Fail? && forall j | i < j < |events| :: !events[j].Succeed?
  }

  lemma {:induction false} StandingCount(events: seq<Event>)
    ensures |Standing(events)| == FailureRun(events)
  {
    if events != [] {
      var n := |events| - 1;
      StandingCount(events[..n]);
      StandingNext(events);
    }
  }

  lemma StandingNext(events: seq<Event>)
    requires events != []
    ensures var (n, e) := (|events| - 1, events[|events| - 1]);
      Standing(events) == if e.Succeed? then {} else Standing(events[..n]) + if e.Fail? then {n} else {}
  {
    var n := |events| - 1;
    forall i | 0 <= i < n
      ensures i in Standing(events) <==> i in Standing(events[..n]) && !events[n].Succeed?
    {
      assert events[..n][i] == events[i] && forall j | i < j < n :: events[..n][j] == events[j];
    }
  }

  predicate FailedLast(events: seq<Event>, i: nat)
    requires i < |events|
  {
    events[i].Fail? && forall j | i < j < |events| :: !events[j].Fail?
  }

  lemma {:induction false} LastFailureAt(events: seq<Event>) returns (i: nat)
    requires LastFailure(events).Some?
    ensures i < |events| && FailedLast(events, i) && LastFailure(events) == Some(events[i].at)
  {
    var n := |events| - 1;
    if events[n].Fail? {
      i := n;
    } else {
      i := LastFailureAt(events[..n]);
      assert forall j | i < j < n :: events[..n][j] == events[j];
    }
  }

  lemma {:induction false} LastFailureExists(events: seq<Event>)
    ensures FailureRun(events) > 0 ==> LastFailure(events).Some?
  {
    if events != [] {
      LastFailureExists(events[..|events| - 1]);
    }
  }

  // A call is refused exactly when five failures stand that no success has followed and the last of them is less
  // than 30 s ago.
  lemma AdmitsExactly(events: seq<Event>, call: nat, at: int)
    requires Monotone(events + [Ask(call, at)])
    ensures !Admits(Run(events), at) <==>
      |Standing(events)| >= 5
      && exists i :: 0 <= i < |events| && FailedLast(events, i) && at - events[i].at < 30_000
  {
    AdmitsByRun(events, call, at);
    StandingCount(events);
    LastFailureExists(events);
    if LastFailure(events).Some? {
      var i := LastFailureAt(events);
      forall j | 0 <= j < |events| && FailedLast(events, j) ensures j == i {
      }
    }
  }

  // In every reachable state the test for a failed probe adds nothing to the threshold test.
  lemma ProbeTestRedundant(events: seq<Event>, call: nat, at: int)
    ensures var s := Run(events);
      Step(s, Fail(call, at)) == if s.failures + 1 >= THRESHOLD then State(Open, s.failures + 1, at)
                                 else s.(failures := s.failures + 1)
  {
    RunMeaning(events);
  }

  function Asks(from: nat, n: nat, at: int): seq<Event> {
    seq(n, i requires 0 <= i < n => Ask(from + i, at))
  }

  // The cooldown lets through any number of calls, not one probe: each of them is admitted until one reports.
  lemma {:induction false} ProbesUnlimited(events: seq<Event>, first: nat, n: nat, at: int)
    requires Run(events).mode != Closed && Admits(Run(events), at)
    ensures Admits(Run(events + Asks(first, n, at)), at)
  {
    if n == 0 {
      assert events + Asks(first, 0, at) == events;
    } else {
      ProbesUnlimited(events, first, n - 1, at);
      var all := events + Asks(first, n, at);
      assert all[..|all| - 1] == events + Asks(first, n - 1, at);
    }
  }

  ghost predicate OnlyAsks(asks: seq<Event>) { forall i | 0 <= i < |asks| :: asks[i].Ask? }

  // How many of the calls that ask after `events` are let through.
  function LetThrough(events: seq<Event>, asks: seq<Event>): nat {
    if asks == [] then 0
    else
      var n := |asks| - 1;
      LetThrough(events, asks[..n]) +
      if asks[n].Ask? && Admits(Run(events + asks[..n]), asks[n].at) then 1 else 0
  }

  // How many of them ask a cooldown or more after `since`.
  function Late(asks: seq<Event>, since: int): nat {
    if asks == [] then 0
    else
      var n := |asks| - 1;
      Late(asks[..n], since) + if asks[n].Ask? && asks[n].at - since >= 30_000 then 1 else 0
  }

  lemma {:induction false} LateStays(asks: seq<Event>, since: int)
    requires OnlyAsks(asks) && Monotone(asks) && Late(asks, since) > 0
    ensures asks[|asks| - 1].at - since >= 30_000
  {
    var n := |asks| - 1;
    if Late(asks[..n], since) > 0 {
      LateStays(asks[..n], since);
      assert asks[..n][n - 1] == asks[n - 1];
    }
  }

  // From an open state, with no outcome in between, exactly the calls are let through that ask 30 s or more after
  // it opened. So there is a single probe exactly when a single such call asks before the next outcome.
  lemma {:induction false} ProbesExactly(events: seq<Event>, asks: seq<Event>)
    requires Run(events).mode == Open && OnlyAsks(asks) && Monotone(asks)
    ensures LetThrough(events, asks) == Late(asks, Run(events).openedAt)
    ensures Run(events + asks) ==
      if Late(asks, Run(events).openedAt) == 0 then Run(events) else Run(events).(mode := HalfOpen)
  {
    if asks == [] {
      assert events + asks == events;
    } else {
      var n := |asks| - 1;
      ProbesExactly(events, asks[..n]);
      assert (events + asks)[..|events| + n] == events + asks[..n];
      if Late(asks[..n], Run(events).openedAt) > 0 {
        LateStays(asks, Run(events).openedAt);
      }
    }
  }

  // The calls that have been let through and have not reported.
  function UnderWay(events: seq<Event>): set<nat> {
    if events == [] then {}
    else
      var (front, e) := (events[..|events| - 1], events[|events| - 1]);
      if !e.Ask? then UnderWay(front) - {e.call}
      else if Admits(Run(front), e.at) then UnderWay(front) + {e.call}
      else UnderWay(front)
  }

  // Only a call under way reports, and no call asks while another is under way.
  ghost predicate Sequential(events: seq<Event>) {
    forall i | 0 <= i < |events| ::
      if events[i].Ask? then UnderWay(events[..i]) == {} else events[i].call in UnderWay(events[..i])
  }

  lemma {:induction false} SequentialState(events: seq<Event>)
    requires Sequential(events)
    ensures if UnderWay(events) == {} then Run(events).mode != HalfOpen
            else events[|events| - 1].Ask? && UnderWay(events) == {events[|events| - 1].call}
  {
    if events != [] {
      var n := |events| - 1;
      forall i | 0 <= i < n
        ensures if events[..n][i].Ask? then UnderWay(events[..n][..i]) == {}
                else events[..n][i].call in UnderWay(events[..n][..i])
      {
        assert events[..n][..i] == events[..i];
      }
      SequentialState(events[..n]);
      assert if events[n].Ask? then UnderWay(events[..n]) == {} else events[n].call in UnderWay(events[..n]);
    }
  }

  // With calls one at a time there is one probe: the event after it is its own outcome, which closes the breaker or
  // opens it anew from the time of the failure.
  lemma OneProbe(events: seq<Event>, i: nat)
    requires Sequential(events) && i + 1 < |events|
    requires Run(events[..i]).mode == Open && events[i].Ask? && Admits(Run(events[..i]), events[i].at)
    ensures !events[i + 1].Ask? && events[i + 1].call == events[i].call
    ensures Run(events[..i + 2]) ==
      if events[i + 1].Succeed? then State(Closed, 0, Run(events[..i]).openedAt)
      else State(Open, Run(events[..i]).failures + 1, events[i + 1].at)
  {
    assert events[..i + 1][..i] == events[..i] && events[..i + 2][..i + 1] == events[..i + 1];
    assert UnderWay(events[..i]) == {};
    assert UnderWay(events[..i + 1]) == {events[i].call};
  }

  // How many outcomes `call` has recorded.
  function Outcomes(events: seq<Event>, call: nat): nat {
    if events == [] then 0
    else
      var e := events[|events| - 1];
      Outcomes(events[..|events| - 1], call) + if !e.Ask? && e.call == call then 1 else 0
  }

  lemma {:induction false} OutcomesAppend(a: seq<Event>, b: seq<Event>, call: nat)
    ensures Outcomes(a + b, call) == Outcomes(a, call) + Outcomes(b, call)
  {
    if b == [] {
      assert a + b == a;
    } else {
      OutcomesAppend(a, b[..|b| - 1], call);
      assert (a + b)[..|a + b| - 1] == a + b[..|b| - 1];
    }
  }

  datatype Result = Response | CircuitOpen | Failed

  // What becomes of one attempt: a response that is ok, an error, or an error after the caller has cancelled.
  datatype Attempt = Answered | Broken | Cancelled

  class Connector {
    var mode: Mode
    var consecutiveFailures: nat
    var openedAt: int
    var clock: int
    ghost var events: seq<Event>

    ghost predicate Valid()
      reads this
    {
      && State(mode, consecutiveFailures, openedAt) == Run(events)
      && Monotone(events) && forall i | 0 <= i < |events| && !events[i].Succeed? :: events[i].at <= clock
    }

    constructor (clock: int)
      ensures Valid() && events == []
    {
      mode, consecutiveFailures, openedAt, this.clock := Closed, 0, 0, clock;
      events := [];
    }

    ghost method Note(e: Event)
      requires forall i | 0 <= i < |events| && !events[i].Succeed? :: events[i].at <= clock
      requires Monotone(events) && (!e.Succeed? ==> e.at == clock)
      modifies this`events
      ensures events == old(events) + [e] && Run(events) == Step(Run(old(events)), e) && Monotone(events)
      ensures forall i | 0 <= i < |events| && !events[i].Succeed? :: events[i].at <= clock
    {
      assert (events + [e])[..|events|] == events;
      events := events + [e];
    }

    method Preflight(ghost call: nat) returns (admitted: bool)
      requires Valid()
      modifies this
      ensures Valid() && events == old(events) + [Ask(call, clock)] && clock == old(clock)
      ensures admitted == Admits(Run(old(events)), clock)
    {
      admitted := true;
      if mode == Open {
        if clock - openedAt >= COOLDOWN_MS {
          mode := HalfOpen;
        } else {
          admitted := false;
        }
      }
      Note(Ask(call, clock));
    }

    method RecordSuccess(ghost call: nat)
      requires Valid()
      modifies this
      ensures Valid() && events == old(events) + [Succeed(call)]
    {
      consecutiveFailures := 0;
      mode := Closed;
      Note(Succeed(call));
    }

    method RecordFailure(ghost call: nat)
      requires Valid()
      modifies this
      ensures Valid() && events == old(events) + [Fail(call, clock)] && clock == old(clock)
    {
      consecutiveFailures := consecutiveFailures + 1;
      if mode == HalfOpen || consecutiveFailures >= THRESHOLD {
        mode := Open;
        openedAt := clock;
      }
      Note(Fail(call, clock));
    }

    // While a request is under way the clock runs and other calls come and go.
    method Others(ghost call: nat)
      requires Valid()
      modifies this
      ensures Valid() && old(events) <= events && Outcomes(events, call) == Outcomes(old(events), call)
    {
      var steps: int := *;
      while steps > 0
        invariant Valid() && old(events) <= events && Outcomes(events, call) == Outcomes(old(events), call)
      {
        steps := steps - 1;
        OneOther(call);
      }
    }

    method OneOther(ghost call: nat)
      requires Valid()
      modifies this
      ensures Valid() && old(events) <= events && Outcomes(events, call) == Outcomes(old(events), call)
    {
      ghost var pick: int := *;
      ghost var other: nat := if pick >= 0 && pick != call then pick else call + 1;
      var wait: int := *;
      var kind: int := *;
      clock := clock + if wait > 0 then wait else 0;
      if kind == 0 {
        var _ := Preflight(other);
      } else if kind == 1 {
        RecordSuccess(other);
      } else {
        RecordFailure(other);
      }
      OutcomesAppend(old(events), [events[|events| - 1]], call);
    }

    // At most two attempts, the second only after an error that was not a cancellation, and exactly one outcome for a
    // call that was let through; none for one that was not.
    method FetchPolite(first: Attempt, second: Attempt, ghost call: nat) returns (r: Result, attempts: nat)
      requires Valid()
      modifies this
      ensures Valid() && old(events) + [Ask(call, old(clock))] <= events
      ensures r == CircuitOpen <==> !Admits(Run(old(events)), old(clock))
      ensures r != CircuitOpen ==> (r == Response <==> first == Answered || (first == Broken && second == Answered))
      ensures attempts == if r == CircuitOpen then 0 else if first == Broken then 2 else 1
      ensures Outcomes(events, call) == Outcomes(old(events), call) + if r == CircuitOpen then 0 else 1
      ensures r == Response ==> events[|events| - 1] == Succeed(call)
      ensures r == Failed ==> events[|events| - 1] == Fail(call, clock)
    {
      attempts := 0;
      var admitted := Preflight(call);
      OutcomesAppend(old(events), [Ask(call, clock)], call);
      if !admitted {
        return CircuitOpen, attempts;
      }
      r, attempts := Attempts(first, second, call);
    }

    method Attempts(first: Attempt, second: Attempt, ghost call: nat) returns (r: Result, attempts: nat)
      requires Valid()
      modifies this
      ensures Valid() && old(events) <= events && r != CircuitOpen
      ensures r == Response <==> first == Answered || (first == Broken && second == Answered)
      ensures attempts == if first == Broken then 2 else 1
      ensures Outcomes(events, call) == Outcomes(old(events), call) + 1
      ensures r == Response ==> events[|events| - 1] == Succeed(call)
      ensures r == Failed ==> events[|events| - 1] == Fail(call, clock)
    {
      attempts := 0;
      while attempts < 2
        invariant Valid() && attempts <= 2 && old(events) <= events
        invariant attempts >= 1 ==> first == Broken
        invariant attempts == 2 ==> second == Broken
        invariant Outcomes(events, call) == Outcomes(old(events), call)
      {
        attempts := attempts + 1;
        Others(call);
        var attempt := if attempts == 1 then first else second;
        if attempt == Answered {
          OutcomesAppend(events, [Succeed(call)], call);
          RecordSuccess(call);
          return Response, attempts;
        }
        if attempt == Cancelled {
          break;
        }
      }
      OutcomesAppend(events, [Fail(call, clock)], call);
      RecordFailure(call);
      return Failed, attempts;
    }
  }
}
