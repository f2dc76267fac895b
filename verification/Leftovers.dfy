/** Which staged bodies stay in the object store behind a command that has its outcome: no later replay visits that
    command, so a body is left for good once nobody who would still delete it is alive. */
module Leftovers {
  import opened Wrappers
  import opened JournalSpec
  import opened Runtime
  import opened Guarantees
  import Replays

  // The body of command `i` is still there although the command has its outcome.
  predicate Left(w: World, i: nat) {
    && i < |w.log.commands| && Terminal(w.log.commands[i])
    && w.log.commands[i].draft.bodyRef.Some? && w.log.commands[i].draft.bodyRef.value in w.objects
  }

  predicate Queued(queue: seq<Command>, operationId: string) {
    exists i :: 0 <= i < |queue| && queue[i].draft.operationId == operationId
  }

  // A process that comes to delete the body of this operation, if it lives on and does not stop before.
  predicate Clears(process: Process, operationId: string) {
    match process
    case Serve(request, stage) =>
      request.binary && request.operationId == operationId && !stage.Arrived? && !stage.Replied? && !stage.Ended?
    case Replay(queue, _, phase) => !phase.Stuck? && Queued(queue, operationId)
  }

  predicate ClearedBy(w: World, pid: nat, i: nat) {
    && pid in w.processes && i < |w.log.commands|
    && Clears(w.processes[pid], w.log.commands[i].draft.operationId)
  }

  // Nobody will delete it.
  ghost predicate Abandoned(w: World, i: nat) {
    Left(w, i) && forall pid | pid in w.processes :: !ClearedBy(w, pid, i)
  }

  // In this step the last process that would have deleted it dies, or is a replay and stops.
  ghost predicate Abandons(w: World, step: Step, i: nat) {
    && Left(w, i) && (step.Crash? || step.Advance?) && ClearedBy(w, step.pid, i)
    && (forall pid | pid in w.processes && pid != step.pid :: !ClearedBy(w, pid, i))
    && (step.Advance? ==> Replays.Halted(After(w, step), step.pid))
  }

  // One step of process `pid` from `w` to `v`, as far as the body of command `i` is concerned.
  ghost predicate Accounts(w: World, v: World, pid: nat, i: nat) {
    && (Left(v, i) && !Left(w, i) ==> ClearedBy(v, pid, i))
    && (Left(v, i) && ClearedBy(w, pid, i) ==> ClearedBy(v, pid, i) || Replays.Halted(v, pid))
    && (Left(w, i) && !ClearedBy(w, pid, i) ==> Left(v, i) && !ClearedBy(v, pid, i))
  }

  lemma RefOf(w: World, i: nat)
    requires Safe(w) && i < |w.log.commands| && w.log.commands[i].draft.bodyRef.Some?
    ensures w.log.commands[i].draft.bodyRef == Some(w.naming(w.tenant, w.log.commands[i].draft.operationId))
  {
    assert DraftOk(w.naming, w.tenant, w.log.commands[i].draft);
  }

  // An object belongs to command `i` exactly if it is named after its operation.
  ghost predicate NamedAfter(w: World, i: nat, operationId: string) {
    i < |w.log.commands| && w.log.commands[i].draft.bodyRef.Some? ==>
      (w.log.commands[i].draft.bodyRef.value == w.naming(w.tenant, operationId) <==>
         w.log.commands[i].draft.operationId == operationId)
  }

  lemma ObjectOf(w: World, i: nat, operationId: string)
    requires Safe(w)
    ensures NamedAfter(w, i, operationId)
  {
    if i < |w.log.commands| && w.log.commands[i].draft.bodyRef.Some? {
      RefOf(w, i);
    }
  }

  // The record of a request that is past `prepare`.
  lemma RecordOfRequest(w: World, pid: nat, request: Request, stage: Stage) returns (k: nat)
    requires Safe(w) && pid in w.processes && w.processes[pid] == Serve(request, stage)
    requires !stage.Arrived? && !stage.Ended?
    ensures Find(w.log.commands, request.operationId) == Some(k) && k < |w.log.commands|
    ensures request.tenantId == w.tenant && (w.log.commands[k].draft.bodyRef.Some? <==> request.binary)
  {
    assert ProcessOk(w.naming, w.tenant, w.log, w.container.memo, w.processes[pid]);
    k := Find(w.log.commands, request.operationId).value;
    assert SameFingerprint(w.log.commands[k].draft, DraftOf(w.naming, request));
  }

  // `finalize` concerns the command of its id alone.
  lemma FinalizeOnly(log: Log, operationId: string, response: Receipt, i: nat)
    requires Inv(log) && i < |log.commands| && Find(log.commands, operationId).Some?
    ensures var (r, later) := Finalize(log, operationId, TerminalStatus(response), response);
      && r.Ok? && |later.commands| == |log.commands| && later.commands[i].draft == log.commands[i].draft
      && (log.commands[i].draft.operationId != operationId || Terminal(log.commands[i]) ==>
            later.commands[i] == log.commands[i])
  {
  }

  // An arriving request leaves terminal commands and all bodies as they are.
  lemma ArrivedKeeps(w: World, pid: nat, request: Request, novel: Receipt, i: nat)
    ensures var v := AdvanceServe(w, pid, request, Arrived, novel);
      v.objects == w.objects && (Left(v, i) <==> Left(w, i)) && |w.log.commands| <= |v.log.commands|
    ensures var v := AdvanceServe(w, pid, request, Arrived, novel);
      i < |w.log.commands| ==> v.log.commands[i] == w.log.commands[i]
  {
    var log := Prepare(w.log, w.tenant, DraftOf(w.naming, request)).1;
    assert i < |w.log.commands| ==> log.commands[i] == w.log.commands[i];
    assert |w.log.commands| <= i < |log.commands| ==> !Terminal(log.commands[i]);
  }

  // If its operation has an outcome, it is answered or refused.
  lemma ArrivedEnds(w: World, pid: nat, request: Request, novel: Receipt, i: nat)
    requires Inv(w.log) && pid in w.processes && i < |w.log.commands|
    requires Terminal(w.log.commands[i]) && w.log.commands[i].draft.operationId == request.operationId
    ensures var v := AdvanceServe(w, pid, request, Arrived, novel);
      && pid in v.processes && v.processes[pid].Serve?
      && (v.processes[pid].stage.Ended? || v.processes[pid].stage.Replied?)
  {
    FindUnique(w.log, i);
  }

  lemma ArrivedAccounts(w: World, pid: nat, request: Request, novel: Receipt, i: nat)
    requires Safe(w) && pid in w.processes && w.processes[pid] == Serve(request, Arrived)
    ensures Accounts(w, AdvanceServe(w, pid, request, Arrived, novel), pid, i)
  {
    ArrivedKeeps(w, pid, request, novel, i);
    if Left(w, i) {
      if w.log.commands[i].draft.operationId == request.operationId {
        ArrivedEnds(w, pid, request, novel, i);
      } else {
        ServeOwn(w, pid, request, Arrived, novel);
      }
    }
  }

  // The process stays with its request.
  lemma ServeOwn(w: World, pid: nat, request: Request, stage: Stage, novel: Receipt)
    requires pid in w.processes && w.processes[pid] == Serve(request, stage)
    ensures var v := AdvanceServe(w, pid, request, stage, novel);
      pid in v.processes && v.processes[pid].Serve? && v.processes[pid].request == request
  {
  }

  lemma ReadyAccounts(w: World, pid: nat, request: Request, novel: Receipt, i: nat)
    requires pid in w.processes && w.processes[pid] == Serve(request, Ready) && request.tenantId == w.tenant
    requires NamedAfter(w, i, request.operationId)
    ensures Accounts(w, AdvanceServe(w, pid, request, Ready, novel), pid, i)
  {
  }

  lemma StagedAccounts(w: World, pid: nat, request: Request, novel: Receipt, i: nat)
    requires pid in w.processes && w.processes[pid] == Serve(request, Staged) && request.tenantId == w.tenant
    requires NamedAfter(w, i, request.operationId)
    ensures Accounts(w, AdvanceServe(w, pid, request, Staged, novel), pid, i)
  {
  }

  lemma FetchedAccounts(w: World, pid: nat, request: Request, payload: string, novel: Receipt, i: nat)
    requires pid in w.processes && w.processes[pid] == Serve(request, Fetched(payload))
    ensures Accounts(w, AdvanceServe(w, pid, request, Fetched(payload), novel), pid, i)
  {
  }

  // The journal of `v` differs from that of `w` in the outcome of one operation at most.
  ghost predicate OnlyEnds(w: World, v: World, i: nat, operationId: string) {
    && |v.log.commands| == |w.log.commands| && v.objects == w.objects
    && (i < |w.log.commands| ==>
          && v.log.commands[i].draft == w.log.commands[i].draft
          && (w.log.commands[i].draft.operationId != operationId || Terminal(w.log.commands[i]) ==>
                v.log.commands[i] == w.log.commands[i]))
  }

  lemma EndAccounts(w: World, v: World, pid: nat, operationId: string, i: nat)
    requires OnlyEnds(w, v, i, operationId) && pid in w.processes && pid in v.processes
    requires i < |w.log.commands| && w.log.commands[i].draft.bodyRef.Some? ==>
      && (Clears(w.processes[pid], w.log.commands[i].draft.operationId) <==>
            Clears(v.processes[pid], w.log.commands[i].draft.operationId))
      && (w.log.commands[i].draft.operationId == operationId ==> Clears(v.processes[pid], operationId))
    ensures Accounts(w, v, pid, i)
  {
  }

  lemma AnsweredAccounts(w: World, pid: nat, request: Request, response: Receipt, novel: Receipt, i: nat)
    requires Safe(w) && pid in w.processes && w.processes[pid] == Serve(request, Answered(response))
    ensures Accounts(w, AdvanceServe(w, pid, request, Answered(response), novel), pid, i)
  {
    var k := RecordOfRequest(w, pid, request, Answered(response));
    FinalizeOnly(w.log, request.operationId, response, if i < |w.log.commands| then i else k);
    AnsweredBecomes(w, pid, request, response, novel);
    if i < |w.log.commands| {
      FindUnique(w.log, i);
    }
    EndAccounts(w, AdvanceServe(w, pid, request, Answered(response), novel), pid, request.operationId, i);
  }

  lemma SettledAccounts(w: World, pid: nat, request: Request, receipt: Receipt, novel: Receipt, i: nat)
    requires pid in w.processes && w.processes[pid] == Serve(request, Settled(receipt)) && request.tenantId == w.tenant
    requires NamedAfter(w, i, request.operationId) && request.binary
    ensures Accounts(w, AdvanceServe(w, pid, request, Settled(receipt), novel), pid, i)
  {
  }

  lemma ServeAccounts(w: World, pid: nat, request: Request, stage: Stage, novel: Receipt, i: nat)
    requires Safe(w) && pid in w.processes && w.processes[pid] == Serve(request, stage)
    ensures Accounts(w, AdvanceServe(w, pid, request, stage, novel), pid, i)
  {
    assert ServeOk(w.naming, w.tenant, w.log, w.container.memo, request, stage) by {
      assert ProcessOk(w.naming, w.tenant, w.log, w.container.memo, w.processes[pid]);
    }
    ObjectOf(w, i, request.operationId);
    match stage
    case Arrived => ArrivedAccounts(w, pid, request, novel, i);
    case Ready => ReadyAccounts(w, pid, request, novel, i);
    case Staged => StagedAccounts(w, pid, request, novel, i);
    case Fetched(payload) => FetchedAccounts(w, pid, request, payload, novel, i);
    case Answered(response) => AnsweredAccounts(w, pid, request, response, novel, i);
    case Settled(receipt) => SettledAccounts(w, pid, request, receipt, novel, i);
    case Replied(_) =>
    case Ended =>
  }

  lemma NextAccounts(w: World, pid: nat, queue: seq<Command>, replayed: seq<string>, novel: Receipt, i: nat)
    requires pid in w.processes && w.processes[pid] == Replay(queue, replayed, Next) && queue != []
    ensures Accounts(w, AdvanceReplay(w, pid, queue, replayed, Next, novel), pid, i)
  {
  }

  lemma LoadedAccounts(w: World, pid: nat, queue: seq<Command>, replayed: seq<string>, payload: string, novel: Receipt,
                       i: nat)
    requires pid in w.processes && w.processes[pid] == Replay(queue, replayed, Loaded(payload)) && queue != []
    ensures Accounts(w, AdvanceReplay(w, pid, queue, replayed, Loaded(payload), novel), pid, i)
  {
  }

  lemma HeardAccounts(w: World, pid: nat, queue: seq<Command>, replayed: seq<string>, response: Receipt, novel: Receipt,
                      i: nat)
    requires Inv(w.log) && pid in w.processes && w.processes[pid] == Replay(queue, replayed, Heard(response))
    requires queue != [] && Find(w.log.commands, queue[0].draft.operationId).Some?
    ensures Accounts(w, AdvanceReplay(w, pid, queue, replayed, Heard(response), novel), pid, i)
  {
    var operationId := queue[0].draft.operationId;
    FinalizeOnly(w.log, operationId, response,
                 if i < |w.log.commands| then i else Find(w.log.commands, operationId).value);
    HeardBecomes(w, pid, queue, replayed, response, novel);
    assert Queued(queue, operationId);
    EndAccounts(w, AdvanceReplay(w, pid, queue, replayed, Heard(response), novel), pid, operationId, i);
  }

  lemma QueuedRest(queue: seq<Command>, operationId: string)
    requires queue != []
    ensures Queued(queue, operationId) <==>
            queue[0].draft.operationId == operationId || Queued(queue[1..], operationId)
  {
    if i :| 0 <= i < |queue[1..]| && queue[1..][i].draft.operationId == operationId {
      assert queue[i + 1].draft.operationId == operationId;
    }
    if i :| 0 < i < |queue| && queue[i].draft.operationId == operationId {
      assert queue[1..][i - 1].draft.operationId == operationId;
    }
  }

  lemma RecordedAccounts(w: World, pid: nat, queue: seq<Command>, replayed: seq<string>, novel: Receipt, i: nat)
    requires pid in w.processes && w.processes[pid] == Replay(queue, replayed, Recorded) && queue != []
    requires NamedAfter(w, i, queue[0].draft.operationId)
    requires queue[0].draft.bodyRef.Some? ==>
      queue[0].draft.bodyRef.value == w.naming(w.tenant, queue[0].draft.operationId)
    requires queue[0].draft.bodyRef.None? && i < |w.log.commands| && w.log.commands[i].draft.bodyRef.Some? ==>
      w.log.commands[i].draft.operationId != queue[0].draft.operationId
    ensures Accounts(w, AdvanceReplay(w, pid, queue, replayed, Recorded, novel), pid, i)
  {
    if i < |w.log.commands| {
      QueuedRest(queue, w.log.commands[i].draft.operationId);
    }
  }

  lemma ReplayAccounts(w: World, pid: nat, queue: seq<Command>, replayed: seq<string>, phase: Phase, novel: Receipt,
                       i: nat)
    requires Safe(w) && pid in w.processes && w.processes[pid] == Replay(queue, replayed, phase)
    ensures Accounts(w, AdvanceReplay(w, pid, queue, replayed, phase, novel), pid, i)
  {
    if queue != [] {
      var k := HeadOfQueue(w, pid, queue, replayed, phase);
      ObjectOf(w, i, queue[0].draft.operationId);
      if i < |w.log.commands| {
        FindUnique(w.log, i);
      }
      match phase
      case Next => NextAccounts(w, pid, queue, replayed, novel, i);
      case Loaded(payload) => LoadedAccounts(w, pid, queue, replayed, payload, novel, i);
      case Heard(response) => HeardAccounts(w, pid, queue, replayed, response, novel, i);
      case Recorded => RecordedAccounts(w, pid, queue, replayed, novel, i);
      case Stuck =>
    }
  }

  /******* Steps and runs *******/

  lemma AdvanceAccounts(w: World, pid: nat, novel: Receipt, i: nat)
    requires Safe(w) && pid in w.processes
    ensures Accounts(w, After(w, Advance(pid, novel)), pid, i)
  {
    match w.processes[pid]
    case Serve(request, stage) => ServeAccounts(w, pid, request, stage, novel, i);
    case Replay(queue, replayed, phase) => ReplayAccounts(w, pid, queue, replayed, phase, novel, i);
  }

  lemma OthersAccount(w: World, pid: nat, novel: Receipt, i: nat, p: nat)
    requires Safe(w) && pid in w.processes && p != pid && i < |w.log.commands|
    ensures ClearedBy(After(w, Advance(pid, novel)), p, i) <==> ClearedBy(w, p, i)
  {
    StepSafe(w, Advance(pid, novel));
    if p in w.processes {
      Replays.OtherStep(w, p, Advance(pid, novel));
    } else {
      NoneAdded(w, pid, novel, p);
    }
  }

  lemma NoneAdded(w: World, pid: nat, novel: Receipt, p: nat)
    requires pid in w.processes && p !in w.processes
    ensures p !in After(w, Advance(pid, novel)).processes
  {
    match w.processes[pid]
    case Serve(request, stage) =>
      match stage {
        case Arrived => assert p !in AdvanceServe(w, pid, request, Arrived, novel).processes;
        case _ =>
      }
    case Replay(queue, replayed, phase) =>
  }

  // A command that becomes terminal or appears in this step was there before.
  lemma LeftBefore(w: World, pid: nat, novel: Receipt, i: nat)
    requires Safe(w) && pid in w.processes && Abandoned(After(w, Advance(pid, novel)), i)
    ensures Left(w, i)
  {
    AdvanceAccounts(w, pid, novel, i);
  }

  lemma AdvanceAbandons(w: World, pid: nat, novel: Receipt, i: nat)
    requires Safe(w) && pid in w.processes
    ensures Abandoned(After(w, Advance(pid, novel)), i) <==> Abandoned(w, i) || Abandons(w, Advance(pid, novel), i)
  {
    var v := After(w, Advance(pid, novel));
    AdvanceAccounts(w, pid, novel, i);
    if Abandoned(v, i) {
      LeftBefore(w, pid, novel, i);
    }
    if Left(w, i) {
      forall p | p != pid ensures ClearedBy(v, p, i) <==> ClearedBy(w, p, i) {
        OthersAccount(w, pid, novel, i, p);
      }
      if Replays.Halted(v, pid) {
        HaltedKeeps(w, pid, novel, i);
      }
    }
  }

  // A replay that stops changes nothing else.
  lemma HaltedKeeps(w: World, pid: nat, novel: Receipt, i: nat)
    requires Safe(w) && pid in w.processes && Replays.Halted(After(w, Advance(pid, novel)), pid)
    ensures Left(After(w, Advance(pid, novel)), i) <==> Left(w, i)
    ensures !ClearedBy(After(w, Advance(pid, novel)), pid, i)
  {
    if w.processes[pid].Serve? {
      ServeOwn(w, pid, w.processes[pid].request, w.processes[pid].stage, novel);
    } else {
      var Replay(queue, replayed, phase) := w.processes[pid];
      if queue != [] {
        var k := HeadOfQueue(w, pid, queue, replayed, phase);
        if phase.Heard? {
          HeardBecomes(w, pid, queue, replayed, phase.response, novel);
        }
      }
    }
  }

  lemma WakeAbandons(w: World, pid: nat, i: nat)
    requires Safe(w) && pid !in w.processes
    ensures Abandoned(After(w, Wake(pid)), i) <==> Abandoned(w, i)
  {
    var v := After(w, Wake(pid));
    if Left(w, i) {
      NotQueued(w.log, i);
      forall p | p in w.processes ensures ClearedBy(v, p, i) <==> ClearedBy(w, p, i) {
      }
    }
  }

  lemma NotQueued(log: Log, i: nat)
    requires Inv(log) && i < |log.commands| && Terminal(log.commands[i])
    ensures !Queued(PendingOf(log.commands), log.commands[i].draft.operationId)
  {
    PendingOfIncreasing(log.commands);
    var queue := PendingOf(log.commands);
    FindUnique(log, i);
    forall j | 0 <= j < |queue| ensures queue[j].draft.operationId != log.commands[i].draft.operationId {
      assert queue[j] in queue;
      var k :| 0 <= k < |log.commands| && log.commands[k] == queue[j];
      FindUnique(log, k);
    }
  }

  lemma ArriveAbandons(w: World, pid: nat, request: Request, i: nat)
    requires pid !in w.processes && request.tenantId == w.tenant
    ensures Abandoned(After(w, Arrive(pid, request)), i) <==> Abandoned(w, i)
  {
    var v := After(w, Arrive(pid, request));
    assert v == Become(w, pid, Serve(request, Arrived)) && !ClearedBy(v, pid, i);
    forall p | p in w.processes ensures ClearedBy(v, p, i) <==> ClearedBy(w, p, i) {
    }
  }

  lemma CrashAbandons(w: World, pid: nat, i: nat)
    ensures Abandoned(After(w, Crash(pid)), i) <==> Abandoned(w, i) || Abandons(w, Crash(pid), i)
  {
    var v := After(w, Crash(pid));
    forall p | p in w.processes && p != pid ensures p in v.processes && (ClearedBy(v, p, i) <==> ClearedBy(w, p, i)) {
    }
  }

  // In every step: a body is abandoned afterwards if and only if it was before, or the last process that would have
  // deleted it dies or stops in this step.
  lemma StepAbandons(w: World, step: Step, i: nat)
    requires Safe(w)
    ensures Abandoned(After(w, step), i) <==> Abandoned(w, i) || Abandons(w, step, i)
  {
    match step
    case Arrive(pid, request) =>
      if pid !in w.processes && request.tenantId == w.tenant {
        ArriveAbandons(w, pid, request, i);
      }
    case Wake(pid) =>
      if pid !in w.processes {
        WakeAbandons(w, pid, i);
      }
    case Advance(pid, novel) =>
      if pid in w.processes {
        AdvanceAbandons(w, pid, novel, i);
      }
    case Crash(pid) => CrashAbandons(w, pid, i);
  }

  // It happens in step `j` of this history.
  ghost predicate AbandonedAt(tenant: string, steps: seq<Step>, i: nat, j: nat) {
    j < |steps| && Abandons(Reached(tenant, steps[..j]), steps[j], i)
  }

  lemma AbandonedAtPrefix(tenant: string, steps: seq<Step>, more: seq<Step>, i: nat, j: nat)
    requires j < |steps|
    ensures AbandonedAt(tenant, steps + more, i, j) <==> AbandonedAt(tenant, steps, i, j)
  {
    assert (steps + more)[..j] == steps[..j] && (steps + more)[j] == steps[j];
  }

  lemma AbandonedAtLast(tenant: string, front: seq<Step>, last: Step, i: nat)
    ensures AbandonedAt(tenant, front + [last], i, |front|) <==> Abandons(Reached(tenant, front), last, i)
    ensures Reached(tenant, front + [last]) == After(Reached(tenant, front), last)
  {
    assert (front + [last])[..|front|] == front;
  }

  // Over all histories: a body is left for good behind a terminal command if and only if at some point the last
  // process that would have deleted it died, or stopped at another command of its queue.
  lemma {:induction false} AbandonedExactly(tenant: string, steps: seq<Step>, i: nat)
    ensures Abandoned(Reached(tenant, steps), i) <==> exists j: nat :: AbandonedAt(tenant, steps, i, j)
  {
    if steps != [] {
      var (front, last) := (steps[..|steps| - 1], steps[|steps| - 1]);
      assert steps == front + [last];
      AbandonedExactly(tenant, front, i);
      ReachedSafe(tenant, front);
      StepAbandons(Reached(tenant, front), last, i);
      AbandonedAtLast(tenant, front, last, i);
      forall j: nat | j < |front| ensures AbandonedAt(tenant, steps, i, j) <==> AbandonedAt(tenant, front, i, j) {
        AbandonedAtPrefix(tenant, front, [last], i, j);
      }
    }
  }

  // It is never deleted any more.
  lemma AbandonedForGood(tenant: string, steps: seq<Step>, more: seq<Step>, i: nat)
    requires Abandoned(Reached(tenant, steps), i)
    ensures Abandoned(Reached(tenant, steps + more), i)
  {
    AbandonedExactly(tenant, steps, i);
    AbandonedExactly(tenant, steps + more, i);
    var j: nat :| AbandonedAt(tenant, steps, i, j);
    AbandonedAtPrefix(tenant, steps, more, i, j);
  }

  // Nothing else is in the object store: every object is the body of a journaled binary command of this tenant.
  lemma ObjectsAreBodies(tenant: string, steps: seq<Step>, ref: string) returns (i: nat)
    requires ref in Reached(tenant, steps).objects
    ensures var w := Reached(tenant, steps);
      && i < |w.log.commands| && w.log.commands[i].draft.bodyRef == Some(ref)
      && ref == BodyRef(tenant, w.log.commands[i].draft.operationId)
      && Digest(w.objects[ref]) == w.log.commands[i].draft.bodyHash
  {
    ReachedSafe(tenant, steps);
    var w := Reached(tenant, steps);
    i :| 0 <= i < |w.log.commands| && w.log.commands[i].draft.bodyRef == Some(ref);
    RefOf(w, i);
    ReachedNaming(tenant, steps);
  }

  lemma {:induction false} ReachedNaming(tenant: string, steps: seq<Step>)
    ensures Reached(tenant, steps).naming == BodyRef
  {
    if steps != [] {
      ReachedNaming(tenant, steps[..|steps| - 1]);
      StepKeepsNames(Reached(tenant, steps[..|steps| - 1]), steps[|steps| - 1]);
    }
  }
}
