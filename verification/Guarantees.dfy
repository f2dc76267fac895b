/** What holds in every world the runtime can reach: from an empty journal, through any
    interleaving of requests, retries, replays and crashes. */
module Guarantees {
  import opened Wrappers
  import opened JournalSpec
  import opened Runtime

  function Run(w: World, steps: seq<Step>): World {
    if steps == [] then w else After(Run(w, steps[..|steps| - 1]), steps[|steps| - 1])
  }

  function Reached(tenant: string, steps: seq<Step>): World { Run(Start(tenant), steps) }

  lemma {:induction false} RunSafe(w: World, steps: seq<Step>)
    requires Safe(w)
    ensures Safe(Run(w, steps)) && Later(w.log, Run(w, steps).log)
    ensures Run(w, steps).tenant == w.tenant && Run(w, steps).naming == w.naming
  {
    if steps != [] {
      var init := steps[..|steps| - 1];
      RunSafe(w, init);
      StepSafe(Run(w, init), steps[|steps| - 1]);
      LaterTransitive(w.log, Run(w, init).log, Run(w, steps).log);
      StepKeepsNames(Run(w, init), steps[|steps| - 1]);
    }
  }

  lemma StepKeepsNames(w: World, step: Step)
    ensures After(w, step).tenant == w.tenant && After(w, step).naming == w.naming
  {
  }

  lemma ReachedSafe(tenant: string, steps: seq<Step>)
    ensures Safe(Reached(tenant, steps)) && Reached(tenant, steps).tenant == tenant
  {
    BodyRefNaming();
    assert Safe(Start(tenant));
    RunSafe(Start(tenant), steps);
  }

  lemma {:induction false} RunTwice(w: World, steps: seq<Step>, more: seq<Step>)
    ensures Run(w, steps + more) == Run(Run(w, steps), more)
  {
    if more == [] {
      assert steps + more == steps;
    } else {
      var init := more[..|more| - 1];
      RunTwice(w, steps, init);
      assert (steps + more)[..|steps + more| - 1] == steps + init;
    }
  }

  /******* Exactly-once acknowledgement *******/

  function Count(effects: seq<Message>, operationId: string): nat {
    if effects == [] then 0
    else Count(effects[..|effects| - 1], operationId)
         + (if effects[|effects| - 1].operationId == operationId then 1 else 0)
  }

  lemma {:induction false} CountOnce(effects: seq<Message>, operationId: string)
    requires Once(effects)
    ensures Count(effects, operationId) == if operationId in Ids(effects) then 1 else 0
    ensures operationId in Ids(effects) <==> exists message :: message in effects && message.operationId == operationId
  {
    if effects != [] {
      var init, last := effects[..|effects| - 1], effects[|effects| - 1];
      CountOnce(init, operationId);
      assert effects == init + [last];
    }
  }

  // A reply with a receipt is backed by a terminal record of that very request, and
  // the operation has taken effect exactly once, with the content the record describes.
  lemma AcknowledgedExactlyOnce(tenant: string, steps: seq<Step>, reply: Reply) returns (i: nat, effect: Message)
    requires reply in Reached(tenant, steps).replies
    ensures var w := Reached(tenant, steps);
      && i < |w.log.commands|
      && w.log.commands[i].draft.operationId == reply.draft.operationId
      && SameFingerprint(w.log.commands[i].draft, reply.draft)
      && Terminal(w.log.commands[i]) && w.log.commands[i].receipt == Some(reply.receipt)
      && w.log.commands[i].status == TerminalStatus(reply.receipt)
      && Count(w.container.effects, reply.draft.operationId) == 1
      && effect in w.container.effects && Matches(effect, w.log.commands[i].draft)
  {
    ReachedSafe(tenant, steps);
    var w := Reached(tenant, steps);
    assert ReplyOk(w.log, reply);
    i := Find(w.log.commands, reply.draft.operationId).value;
    CountOnce(w.container.effects, reply.draft.operationId);
    effect :| effect in w.container.effects && effect.operationId == reply.draft.operationId;
    assert MessageOk(w.log, effect);
  }

  // Nothing that happens later changes the record behind a reply.
  lemma AcknowledgedForGood(tenant: string, steps: seq<Step>, more: seq<Step>, reply: Reply)
    requires reply in Reached(tenant, steps).replies
    ensures var w, v := Reached(tenant, steps), Reached(tenant, steps + more);
      var found := Find(w.log.commands, reply.draft.operationId);
      && found.Some? && Find(v.log.commands, reply.draft.operationId) == found
      && v.log.commands[found.value] == w.log.commands[found.value]
      && v.log.commands[found.value].receipt == Some(reply.receipt)
  {
    ReachedSafe(tenant, steps);
    RunTwice(Start(tenant), steps, more);
    RunSafe(Reached(tenant, steps), more);
    var w, v := Reached(tenant, steps), Reached(tenant, steps + more);
    assert ReplyOk(w.log, reply);
    FindLater(w.log, v.log, reply.draft.operationId);
  }

  lemma OneAnswer(tenant: string, steps: seq<Step>, a: Reply, b: Reply)
    requires a in Reached(tenant, steps).replies && b in Reached(tenant, steps).replies
    requires a.draft.operationId == b.draft.operationId
    ensures a.receipt == b.receipt && SameFingerprint(a.draft, b.draft)
  {
    ReachedSafe(tenant, steps);
    var w := Reached(tenant, steps);
    assert ReplyOk(w.log, a) && ReplyOk(w.log, b);
  }

  // An operation takes effect at most once, and only after the journal has it.
  lemma EffectsAreJournaled(tenant: string, steps: seq<Step>, operationId: string)
    ensures var w := Reached(tenant, steps);
      && Count(w.container.effects, operationId) <= 1
      && (Count(w.container.effects, operationId) == 1 ==> Find(w.log.commands, operationId).Some?)
  {
    ReachedSafe(tenant, steps);
    var w := Reached(tenant, steps);
    CountOnce(w.container.effects, operationId);
    if effect :| effect in w.container.effects && effect.operationId == operationId {
      assert MessageOk(w.log, effect);
    }
  }

  // A later request with the same fingerprint gets the stored receipt, and neither journal, objects nor
  // container notice.
  lemma RetryServedFromRecord(tenant: string, steps: seq<Step>, pid: nat, request: Request, novel: Receipt, i: nat)
    requires var w := Reached(tenant, steps);
      && pid in w.processes && w.processes[pid] == Serve(request, Arrived) && Admit(request) == Journaled
      && i < |w.log.commands| && Terminal(w.log.commands[i])
      && w.log.commands[i].draft.operationId == request.operationId
      && SameFingerprint(w.log.commands[i].draft, DraftOf(w.naming, request))
    ensures var w := Reached(tenant, steps);
      var v := After(w, Advance(pid, novel));
      && w.log.commands[i].receipt.Some?
      && v.processes[pid] == Serve(request, Replied(w.log.commands[i].receipt.value))
      && v.log == w.log && v.objects == w.objects && v.container == w.container
      && v.replies == w.replies + [Reply(DraftOf(w.naming, request), w.log.commands[i].receipt.value)]
  {
    ReachedSafe(tenant, steps);
    var w := Reached(tenant, steps);
    assert ProcessOk(w.naming, w.tenant, w.log, w.container.memo, w.processes[pid]);
    FindUnique(w.log, i);
  }

  // A request that reuses an operation id for something else changes nothing but its own process.
  lemma ReuseChangesNothing(tenant: string, steps: seq<Step>, pid: nat, request: Request, novel: Receipt, i: nat)
    requires var w := Reached(tenant, steps);
      && pid in w.processes && w.processes[pid] == Serve(request, Arrived)
      && i < |w.log.commands|
      && w.log.commands[i].draft.operationId == request.operationId
      && !SameFingerprint(w.log.commands[i].draft, DraftOf(w.naming, request))
    ensures var w := Reached(tenant, steps);
      After(w, Advance(pid, novel)) == w.(processes := w.processes[pid := Serve(request, Ended)])
  {
    ReachedSafe(tenant, steps);
    var w := Reached(tenant, steps);
    assert ProcessOk(w.naming, w.tenant, w.log, w.container.memo, w.processes[pid]);
    FindUnique(w.log, i);
  }

  /******* What the container is told *******/

  // All messages for one operation id say the same; only the search part of a binary request and the content type may
  // differ.
  lemma MessagesAgree(tenant: string, steps: seq<Step>, a: Message, b: Message)
    requires a in Reached(tenant, steps).container.seen && b in Reached(tenant, steps).container.seen
    requires a.operationId == b.operationId
    ensures a.(target := b.target, contentType := b.contentType) == b
    ensures var w := Reached(tenant, steps);
      var i := Find(w.log.commands, a.operationId);
      i.Some? && (w.log.commands[i.value].draft.bodyRef.None? ==> a.target == b.target)
  {
    ReachedSafe(tenant, steps);
    var w := Reached(tenant, steps);
    assert MessageOk(w.log, a) && MessageOk(w.log, b);
  }

  /******* The mark and the staged objects *******/

  lemma MarkIsExact(tenant: string, steps: seq<Step>)
    ensures var log := Reached(tenant, steps).log;
      && log.mark == TerminalPrefix(log.commands)
      && (PendingOf(log.commands) == [] <==> log.mark == |log.commands|)
      && (forall i | 0 <= i < |log.commands| :: log.commands[i].sequence == i + 1)
      && (forall i, j | 0 <= i < j < |log.commands| ::
            log.commands[i].draft.operationId != log.commands[j].draft.operationId)
  {
    ReachedSafe(tenant, steps);
    NamedMarkIsExact(Reached(tenant, steps).log);
  }

  // As long as a binary command is pending, a body once uploaded is there, and it is the body the command
  // was prepared for.
  lemma StagedBodyExists(tenant: string, steps: seq<Step>, i: nat)
    requires var w := Reached(tenant, steps);
      && i < |w.log.commands| && !Terminal(w.log.commands[i])
      && w.log.commands[i].draft.bodyRef.Some? && w.log.commands[i].draft.bodyRef.value in w.uploaded
    ensures var w := Reached(tenant, steps);
      var ref := w.log.commands[i].draft.bodyRef.value;
      ref in w.objects && Digest(w.objects[ref]) == w.log.commands[i].draft.bodyHash
  {
    ReachedSafe(tenant, steps);
  }

  // The receipts of the container and of the journal are the same, and so are their verdicts.
  lemma TerminalMeansAnswered(tenant: string, steps: seq<Step>, i: nat)
    requires i < |Reached(tenant, steps).log.commands| && Terminal(Reached(tenant, steps).log.commands[i])
    ensures var w := Reached(tenant, steps);
      var command := w.log.commands[i];
      && command.receipt.Some?
      && Remembers(w.container.memo, command.draft.operationId, command.receipt.value)
      && (command.status == Applied <==> 200 <= command.receipt.value.status < 300)
  {
    ReachedSafe(tenant, steps);
  }

  /******* One definition at a time *******/

  // Two requests under one operation id are the same to the journal if and only if they agree in kind, verb, path,
  // body and session; only for text requests does the search part belong to the path. The times are recorded and do
  // not matter.
  lemma {:induction false} FingerprintExactly(naming: Naming, a: Request, b: Request)
    requires a.operationId == b.operationId && a.tenantId == b.tenantId
    ensures SameFingerprint(DraftOf(naming, a), DraftOf(naming, b)) <==>
      && a.binary == b.binary && a.verb == b.verb && a.body == b.body && a.mcpSessionId == b.mcpSessionId
      && (if a.binary then a.pathname == b.pathname else a.pathname + a.search == b.pathname + b.search)
    ensures DraftOf(naming, a).createdAtMs == a.createdAtMs
  {
    assert Digest(a.body).of == a.body && Digest(b.body).of == b.body;
  }

  // A replay sends what the request sent exactly when nothing is lost: of a binary request the search part of its URL,
  // of a text request its content type.
  lemma {:induction false} ReplayRepeatsRequest(naming: Naming, request: Request)
    ensures LiveMessage(request, request.body) ==
            ReplayMessage(request.tenantId, DraftOf(naming, request), request.body)
      <==> if request.binary then request.search == "" else request.contentType.None?
  {
    if request.binary && request.search != "" {
      assert |request.pathname + request.search| > |request.pathname|;
    }
  }
}
