/** One-use confirmations of destructive operations in a local MCP session. */
module Confirm {
  import opened Wrappers

  const LIFETIME := 300

  datatype Confirmation = Confirmation(operation: string, resource: string, expiresAt: int)

  // A confirmation is issued, or someone tries to use one.
  datatype Event =
    | Issue(token: string, operation: string, resource: string, at: int)
    | Use(token: string, operation: string, resource: string, at: int)

  type Held = map<string, Confirmation>

  predicate Destructive(operation: string) {
    operation == "memory_delete" || operation == "consolidate" || operation == "run_lifecycle"
  }

  function Unexpired(held: Held, at: int): Held {
    map token | token in held && held[token].expiresAt >= at :: held[token]
  }

  predicate Grants(held: Held, token: string, operation: string, resource: string, at: int) {
    && token in held && held[token].expiresAt >= at
    && held[token].operation == operation && held[token].resource == resource
  }

  function Step(held: Held, e: Event): Held {
    match e
    case Issue(token, operation, resource, at) =>
      Unexpired(held, at)[token := Confirmation(operation, resource, at + LIFETIME)]
    case Use(token, _, _, _) => held - {token}
  }

  function Run(events: seq<Event>): Held {
    if events == [] then map[] else Step(Run(events[..|events| - 1]), events[|events| - 1])
  }

  ghost predicate Monotone(events: seq<Event>) {
    forall i, j | 0 <= i < j < |events| :: events[i].at <= events[j].at
  }

  ghost predicate Before(events: seq<Event>, at: int) {
    forall i | 0 <= i < |events| :: events[i].at <= at
  }

  // What was issued under `token` and has not been tried since.
  function Standing(events: seq<Event>, token: string): Option<Confirmation> {
    if events == [] then None
    else
      var last := events[|events| - 1];
      if last.token != token then Standing(events[..|events| - 1], token)
      else if last.Use? then None
      else Some(Confirmation(last.operation, last.resource, last.at + LIFETIME))
  }

  // The purge on issue drops nothing that could still be used.
  lemma {:induction false} HeldMeansStanding(events: seq<Event>, token: string, at: int)
    requires Monotone(events) && Before(events, at)
    ensures var (held, standing) := (Run(events), Standing(events, token));
      && (token in held ==> standing == Some(held[token]))
      && (standing.Some? && token !in held ==> standing.value.expiresAt < at)
  {
    if events != [] {
      var (front, last) := (events[..|events| - 1], events[|events| - 1]);
      assert Before(front, last.at);
      HeldMeansStanding(front, token, last.at);
    }
  }

  // A use is granted exactly when that token was issued for that operation on that resource at most 300 s ago and
  // nobody has tried it since.
  lemma {:induction false} GrantsExactly(events: seq<Event>, token: string, operation: string, resource: string,
                                         at: int)
    requires Monotone(events) && Before(events, at)
    ensures var standing := Standing(events, token);
      Grants(Run(events), token, operation, resource, at) <==>
      standing.Some? && standing.value.expiresAt >= at
      && standing.value.operation == operation && standing.value.resource == resource
  {
    HeldMeansStanding(events, token, at);
  }

  // The same in terms of the history itself.
  lemma GrantsForIssue(events: seq<Event>, token: string, operation: string, resource: string, at: int)
    requires Monotone(events) && Before(events, at)
    ensures Grants(Run(events), token, operation, resource, at) <==>
      exists i :: 0 <= i < |events| && IssuedLast(events, i, token, operation, resource, at)
  {
    GrantsExactly(events, token, operation, resource, at);
    StandingExactly(events, token, operation, resource, at);
  }

  // Event `i` issues this token for this use at most 300 s before, and no later event names the token.
  predicate IssuedLast(events: seq<Event>, i: nat, token: string, operation: string, resource: string, at: int)
    requires i < |events|
  {
    && events[i].Issue? && events[i].token == token && events[i].operation == operation
    && events[i].resource == resource && at - events[i].at <= 300
    && forall j | i < j < |events| :: events[j].token != token
  }

  lemma IssuedEarlier(events: seq<Event>, i: nat, token: string, operation: string, resource: string, at: int)
    requires i < |events| - 1
    ensures var n := |events| - 1;
      IssuedLast(events, i, token, operation, resource, at) <==>
      IssuedLast(events[..n], i, token, operation, resource, at) && events[n].token != token
  {
    var n := |events| - 1;
    assert events[..n][i] == events[i] && forall j | i < j < n :: events[..n][j] == events[j];
  }

  lemma {:induction false} StandingExactly(events: seq<Event>, token: string, operation: string, resource: string,
                                           at: int)
    ensures var standing := Standing(events, token);
      (standing.Some? && standing.value.expiresAt >= at
       && standing.value.operation == operation && standing.value.resource == resource) <==>
      exists i :: 0 <= i < |events| && IssuedLast(events, i, token, operation, resource, at)
  {
    if events != [] {
      var n := |events| - 1;
      forall i | 0 <= i < n
        ensures IssuedLast(events, i, token, operation, resource, at) <==>
                IssuedLast(events[..n], i, token, operation, resource, at) && events[n].token != token
      {
        IssuedEarlier(events, i, token, operation, resource, at);
      }
      if events[n].token == token {
        assert IssuedLast(events, n, token, operation, resource, at) <==>
          events[n].Issue? && events[n].operation == operation && events[n].resource == resource
          && at - events[n].at <= 300;
      } else {
        StandingExactly(events[..n], token, operation, resource, at);
        if i :| 0 <= i < n && IssuedLast(events[..n], i, token, operation, resource, at) {
          assert IssuedLast(events, i, token, operation, resource, at);
        }
      }
    }
  }

  function Issues(events: seq<Event>, token: string): nat {
    if events == [] then 0
    else
      var last := events[|events| - 1];
      Issues(events[..|events| - 1], token) + if last.Issue? && last.token == token then 1 else 0
  }

  function Granted(events: seq<Event>, token: string): nat {
    if events == [] then 0
    else
      var (front, last) := (events[..|events| - 1], events[|events| - 1]);
      Granted(front, token)
      + if last.Use? && last.token == token && Grants(Run(front), token, last.operation, last.resource, last.at)
        then 1 else 0
  }

  // No token is ever good for more uses than it was issued for.
  lemma {:induction false} GrantedAtMostIssued(events: seq<Event>, token: string)
    ensures Granted(events, token) + (if token in Run(events) then 1 else 0) <= Issues(events, token)
  {
    if events != [] {
      GrantedAtMostIssued(events[..|events| - 1], token);
    }
  }

  class Session {
    var confirmations: Held
    var clock: int
    ghost var events: seq<Event>

    ghost predicate Valid()
      reads this
    {
      confirmations == Run(events) && Monotone(events) && Before(events, clock)
    }

    constructor (clock: int)
      ensures Valid() && events == []
    {
      confirmations, this.clock, events := map[], clock, [];
    }

    ghost method Note(e: Event)
      requires Monotone(events) && Before(events, clock) && e.at == clock
      modifies this`events
      ensures events == old(events) + [e] && Run(events) == Step(Run(old(events)), e)
      ensures Monotone(events) && Before(events, clock)
    {
      assert (events + [e])[..|events|] == events;
      events := events + [e];
    }

    method ConfirmDestructive(operation: string, resource: string, token: string) returns (r: Result<string, string>)
      requires Valid()
      modifies this`confirmations, this`events
      ensures Valid() && (r.Ok? <==> operation in {"memory_delete", "consolidate", "run_lifecycle"})
      ensures r.Ok? ==> r.value == token && events == old(events) + [Issue(token, operation, resource, clock)]
      ensures r.Err? ==> events == old(events)
    {
      if !Destructive(operation) {
        return Err("invalid confirmation operation");
      }
      confirmations := Unexpired(confirmations, clock);
      confirmations := confirmations[token := Confirmation(operation, resource, clock + LIFETIME)];
      Note(Issue(token, operation, resource, clock));
      return Ok(token);
    }

    method Consume(operation: string, id: Option<string>, token: Option<string>) returns (granted: bool)
      requires Valid()
      modifies this`confirmations, this`events
      ensures Valid()
      ensures token.None? ==> !granted && events == old(events)
      ensures token.Some? ==>
        var resource := if id.Some? then id.value else "tenant";
        && events == old(events) + [Use(token.value, operation, resource, clock)]
        && granted == Grants(Run(old(events)), token.value, operation, resource, clock)
    {
      if token.None? {
        return false;
      }
      var resource := if id.Some? then id.value else "tenant";
      Note(Use(token.value, operation, resource, clock));
      if token.value !in confirmations {
        return false;
      }
      var confirmation := confirmations[token.value];
      confirmations := confirmations - {token.value};
      granted := confirmation.expiresAt >= clock && confirmation.operation == operation
                 && confirmation.resource == resource;
    }
  }
}
