/** The tenant runtime as the code runs it: requests and replays as methods over the journal, the object
    store and the container. A ghost trace takes one step of the transition system per await, so what
    holds of every reachable world holds of every object of this class. */
module Worker {
  import opened Wrappers
  import opened JournalSpec
  import opened Runtime
  import opened Guarantees
  import Journal

  datatype Outcome =
    | Passed                        // forwarded without a journal record
    | Refused(status: int, code: string)
    | Conflict
    | Failed                        // no answer: the container, the hook before `finalize` or the process was lost
    | Unrecorded                    // 503: the receipt could not be stored
    | BodyGone                      // 503: the staged body was not there to read
    | Receipted(receipt: Receipt)

  datatype ReplayOutcome =
    | Completed(replayed: seq<string>)
    | BodyMissing(index: nat)       // stopped: a staged body is not there
    | Interrupted(index: nat)       // stopped: the container did not answer

  datatype ItemOutcome = Done | NoBody | Lost

  // What befalls one call: the process is lost before or after the container has the message, the hook before
  // `finalize` or the store fails, a replay overtakes it; and what the container answers to something new.
  datatype Luck = Luck(lostBefore: bool, lostAfter: bool, hookFails: bool, storeFails: bool, overtaken: bool,
                       novel: Receipt)
  {
    predicate Lost() { lostBefore || lostAfter }
  }

  // A replay that was woken before and is about to take the first command of its queue.
  datatype Rival = Rival(pid: nat, queue: seq<Command>, replayed: seq<string>)

  // The messages `after` are `before` followed by one message for each of `ids`, in that order.
  ghost predicate Sent(before: seq<Message>, ids: seq<string>, after: seq<Message>) {
    && |after| == |before| + |ids| && after[..|before|] == before
    && forall i | 0 <= i < |ids| :: after[|before| + i].operationId == ids[i]
  }

  lemma SentOneMore(before: seq<Message>, ids: seq<string>, middle: seq<Message>, id: string, after: seq<Message>)
    requires Sent(before, ids, middle) && Sent(middle, [id], after)
    ensures Sent(before, ids + [id], after)
  {
    assert after[..|before|] == after[..|middle|][..|before|];
    forall i | 0 <= i < |ids| ensures after[|before| + i].operationId == ids[i] {
      assert after[..|middle|][|before| + i] == middle[|before| + i];
    }
  }

  const NOTHING := Receipt(0, "", map[], "")

  /** A run of the transition system up to now. */
  class Trace {
    ghost const naming: Naming
    ghost const tenant: string
    ghost var world: World
    ghost var history: seq<Step>

    ghost predicate Valid()
      reads this
    {
      world == Run(StartWith(naming, tenant), history) && world.tenant == tenant && world.naming == naming
    }

    ghost constructor (naming: Naming, tenant: string)
      ensures Valid() && this.naming == naming && this.tenant == tenant && world == StartWith(naming, tenant)
    {
      this.naming := naming;
      this.tenant := tenant;
      world := StartWith(naming, tenant);
      history := [];
    }

    ghost method Take(step: Step)
      requires Valid()
      modifies this
      ensures Valid() && world == After(old(world), step)
      ensures history == old(history) + [step]
    {
      assert (history + [step])[..|history|] == history;
      StepKeepsNames(world, step);
      world := After(world, step);
      history := history + [step];
    }

    ghost method Arrives(pid: nat, request: Request)
      requires Valid() && pid !in world.processes && request.tenantId == tenant
      modifies this
      ensures Valid() && old(history) <= history
      ensures world == Become(old(world), pid, Serve(request, Arrived))
    {
      Take(Arrive(pid, request));
    }

    ghost method Refuses(pid: nat, request: Request)
      requires Valid() && pid in world.processes && world.processes[pid] == Serve(request, Arrived)
      requires Admit(request) != Journaled
      modifies this
      ensures Valid() && old(history) <= history
      ensures world == Become(old(world), pid, Serve(request, Ended))
    {
      Take(Advance(pid, NOTHING));
    }

    ghost method Prepares(pid: nat, request: Request, r: Result<Prepared, Failure>, log: Log)
      requires Valid() && pid in world.processes && world.processes[pid] == Serve(request, Arrived)
      requires Admit(request) == Journaled && request.tenantId == tenant
      requires (r, log) == Prepare(world.log, tenant, DraftOf(naming, request))
      modifies this
      ensures Valid() && old(history) <= history
      ensures world ==
        match r
        case Err(_) => Become(old(world), pid, Serve(request, Ended))
        case Ok(Prepared(command, reused)) =>
          if reused && Terminal(command) && command.receipt.Some?
          then Answer(old(world), pid, request, command.receipt.value)
          else Become(old(world).(log := log), pid, Serve(request, Ready))
    {
      Take(Advance(pid, NOTHING));
    }

    ghost method Stages(pid: nat, request: Request, ref: string)
      requires Valid() && pid in world.processes && world.processes[pid] == Serve(request, Ready)
      requires request.binary && ref == naming(request.tenantId, request.operationId)
      modifies this
      ensures Valid() && old(history) <= history
      ensures world == Become(
        old(world).(objects := old(world).objects[ref := request.body], uploaded := old(world).uploaded + {ref}),
        pid, Serve(request, Staged))
    {
      Take(Advance(pid, NOTHING));
    }

    ghost method Fetches(pid: nat, request: Request, ref: string)
      requires Valid() && pid in world.processes && world.processes[pid] == Serve(request, Staged)
      requires ref == naming(request.tenantId, request.operationId)
      modifies this
      ensures Valid() && old(history) <= history
      ensures world == Become(old(world), pid, Serve(request,
        if ref in old(world).objects then Fetched(old(world).objects[ref]) else Ended))
    {
      Take(Advance(pid, NOTHING));
    }

    ghost method Forwards(pid: nat, request: Request, payload: string, novel: Receipt)
      requires Valid() && pid in world.processes
      requires world.processes[pid] == if request.binary then Serve(request, Fetched(payload))
                                       else Serve(request, Ready)
      requires !request.binary ==> payload == request.body
      modifies this
      ensures Valid() && old(history) <= history
      ensures world == Forward(old(world), pid, request, payload, novel)
    {
      Take(Advance(pid, novel));
    }

    ghost method Finishes(pid: nat, request: Request, response: Receipt, log: Log)
      requires Valid() && pid in world.processes && world.processes[pid] == Serve(request, Answered(response))
      requires var (r, later) := Finalize(world.log, request.operationId, TerminalStatus(response), response);
        r.Ok? && log == later
      modifies this
      ensures Valid() && old(history) <= history
      ensures world ==
        if request.binary then Become(old(world).(log := log), pid, Serve(request, Settled(response)))
        else Answer(old(world).(log := log), pid, request, response)
    {
      Take(Advance(pid, NOTHING));
    }

    ghost method Clears(pid: nat, request: Request, receipt: Receipt, ref: string)
      requires Valid() && pid in world.processes && world.processes[pid] == Serve(request, Settled(receipt))
      requires ref == naming(request.tenantId, request.operationId)
      modifies this
      ensures Valid() && old(history) <= history
      ensures world == Answer(old(world).(objects := old(world).objects - {ref}), pid, request, receipt)
    {
      Take(Advance(pid, NOTHING));
    }

    ghost method Dies(pid: nat)
      requires Valid()
      modifies this
      ensures Valid() && old(history) <= history
      ensures world == old(world).(processes := old(world).processes - {pid})
    {
      Take(Crash(pid));
    }

    ghost method Wakes(pid: nat)
      requires Valid() && pid !in world.processes
      modifies this
      ensures Valid() && old(history) <= history
      ensures world == Become(old(world), pid, Replay(PendingOf(old(world).log.commands), [], Next))
    {
      Take(Wake(pid));
    }

    ghost method Loads(pid: nat, queue: seq<Command>, replayed: seq<string>, payload: Option<string>)
      requires Valid() && pid in world.processes && world.processes[pid] == Replay(queue, replayed, Next)
      requires queue != []
      requires payload == match queue[0].draft.bodyRef
                          case None => Some(queue[0].draft.body)
                          case Some(ref) => if ref in world.objects then Some(world.objects[ref]) else None
      modifies this
      ensures Valid() && old(history) <= history
      ensures world == Become(old(world), pid,
        Replay(queue, replayed, if payload.Some? then Loaded(payload.value) else Stuck))
    {
      Take(Advance(pid, NOTHING));
    }

    ghost method ReplayForwards(pid: nat, queue: seq<Command>, replayed: seq<string>, payload: string, novel: Receipt)
      requires Valid() && pid in world.processes && world.processes[pid] == Replay(queue, replayed, Loaded(payload))
      requires queue != []
      modifies this
      ensures Valid() && old(history) <= history
      ensures var (response, container) :=
          Deliver(old(world).container, ReplayMessage(tenant, queue[0].draft, payload), novel);
        world == Become(old(world).(container := container), pid, Replay(queue, replayed, Heard(response)))
    {
      Take(Advance(pid, novel));
    }

    ghost method ReplayFinishes(pid: nat, queue: seq<Command>, replayed: seq<string>, response: Receipt, log: Log)
      requires Valid() && pid in world.processes && world.processes[pid] == Replay(queue, replayed, Heard(response))
      requires queue != []
      requires var (r, later) :=
          Finalize(world.log, queue[0].draft.operationId, TerminalStatus(response), response);
        r.Ok? && log == later
      modifies this
      ensures Valid() && old(history) <= history
      ensures world == Become(old(world).(log := log), pid, Replay(queue, replayed, Recorded))
    {
      Take(Advance(pid, NOTHING));
    }

    ghost method ReplayClears(pid: nat, queue: seq<Command>, replayed: seq<string>)
      requires Valid() && pid in world.processes && world.processes[pid] == Replay(queue, replayed, Recorded)
      requires queue != []
      modifies this
      ensures Valid() && old(history) <= history
      ensures var ref := queue[0].draft.bodyRef;
        world == Become(
          old(world).(objects := if ref.Some? then old(world).objects - {ref.value} else old(world).objects),
          pid, Replay(queue[1..], replayed + [queue[0].draft.operationId], Next))
    {
      Take(Advance(pid, NOTHING));
    }
  }

  /** One tenant's runtime. */
  class TenantRuntime {
    const journal: Journal.TenantJournal
    const naming: Naming
    const tenant: string
    var objects: map<string, string>
    var container: Container
    ghost const trace: Trace

    ghost predicate Valid()
      reads this, journal.storage, trace
    {
      && journal.storage.Valid() && trace.Valid()
      && journal.tenantId == tenant == trace.tenant && naming == trace.naming
      && trace.world.log == journal.storage.log
      && trace.world.objects == objects && trace.world.container == container
    }

    constructor (storage: Journal.Storage, naming: Naming, tenant: string)
      requires storage.Valid() && storage.log == EMPTY
      ensures Valid() && this.tenant == tenant && this.naming == naming && journal.storage == storage
      ensures fresh(trace) && trace.world == StartWith(naming, tenant)
    {
      this.journal := new Journal.TenantJournal(storage, tenant);
      this.naming := naming;
      this.tenant := tenant;
      objects := map[];
      container := Container(map[], [], []);
      trace := new Trace(naming, tenant);
    }

    // `prepare`: either the request is answered already or it is journaled and pending.
    method Enter(request: Request, ghost pid: nat) returns (early: Option<Outcome>)
      requires Valid() && pid in trace.world.processes && trace.world.processes[pid] == Serve(request, Arrived)
      requires Admit(request) == Journaled && request.tenantId == tenant
      modifies journal.storage, trace
      ensures Valid() && old(trace.history) <= trace.history
      ensures early.None? ==>
        && Awaiting(journal.storage.log, request.operationId) && trace.world.replies == old(trace.world.replies)
        && trace.world.processes == old(trace.world.processes)[pid := Serve(request, Ready)]
      ensures early.Some? ==> journal.storage.log == old(journal.storage.log)
      ensures early.Some? ==>
        match early.value
        case Conflict => true
        case Receipted(receipt) =>
          && trace.world.replies == old(trace.world.replies) + [Reply(DraftOf(naming, request), receipt)]
          && Concludes(old(journal.storage.log), request.operationId, receipt)
        case _ => false
      ensures early == Some(Conflict) <==> Clashes(old(journal.storage.log), tenant, naming, request)
      ensures early.None? ==> !Concluded(old(journal.storage.log), request.operationId)
    {
      var prepared := journal.Prepare(DraftOf(naming, request));
      trace.Prepares(pid, request, prepared, journal.storage.log);
      if prepared.Err? {
        return Some(Conflict);
      }
      PreparedConcluded(old(journal.storage.log), tenant, DraftOf(naming, request));
      if prepared.value.reused && Terminal(prepared.value.command) && prepared.value.command.receipt.Some? {
        return Some(Receipted(prepared.value.command.receipt.value));
      }
      FoundAfterPrepare(old(journal.storage.log), tenant, DraftOf(naming, request));
      return None;
    }

    // Admission and `prepare`.
    method Begin(request: Request, ghost pid: nat) returns (early: Option<Outcome>)
      requires Valid() && pid !in trace.world.processes && request.tenantId == tenant
      modifies journal.storage, trace
      ensures Valid() && old(trace.history) <= trace.history
      ensures early.None? ==>
        && Admit(request) == Journaled && Awaiting(journal.storage.log, request.operationId)
        && trace.world.processes == old(trace.world.processes)[pid := Serve(request, Ready)]
        && trace.world.replies == old(trace.world.replies)
      ensures early.Some? ==> journal.storage.log == old(journal.storage.log)
      ensures early.Some? ==> Decides(early.value, old(journal.storage.log), tenant, naming, request)
      ensures early.Some? ==> !early.value.Failed? && !early.value.Unrecorded? && !early.value.BodyGone?
      ensures early.None? <==> Proceeds(old(journal.storage.log), tenant, naming, request)
      ensures early.Some? && early.value.Receipted? ==>
        && trace.world.replies == old(trace.world.replies) + [Reply(DraftOf(naming, request), early.value.receipt)]
        && Concludes(old(journal.storage.log), request.operationId, early.value.receipt)
    {
      trace.Arrives(pid, request);
      DecisionExactly(request);
      var decision := Admit(request);
      if decision != Journaled {
        trace.Refuses(pid, request);
        return Some(if decision.Direct? then Passed else Refused(decision.status, decision.code));
      }
      Overwritten(old(trace.world.processes), pid, Serve(request, Arrived), Serve(request, Ready));
      early := Enter(request, pid);
      if early.Some? {
        AdmittedDecides(early.value, old(journal.storage.log), tenant, naming, request);
      }
    }

    // The container answers, or the process is lost before or after the message took effect.
    method Send(request: Request, payload: string, luck: Luck, ghost pid: nat) returns (response: Option<Receipt>)
      requires Valid() && pid in trace.world.processes
      requires trace.world.processes[pid] == if request.binary then Serve(request, Fetched(payload))
                                             else Serve(request, Ready)
      requires !request.binary ==> payload == request.body
      modifies this`container, trace
      ensures Valid() && old(trace.history) <= trace.history
      ensures trace.world.replies == old(trace.world.replies)
      ensures response.Some? <==> !luck.Lost()
      ensures container == Told(old(container), LiveMessage(request, payload), luck)
      ensures response.Some? ==>
        && response.value == Deliver(old(container), LiveMessage(request, payload), luck.novel).0
        && pid in trace.world.processes && trace.world.processes[pid] == Serve(request, Answered(response.value))
        && request.operationId in container.memo
    {
      if luck.lostBefore {
        trace.Dies(pid);
        return None;
      }
      var (answer, later) := Deliver(container, LiveMessage(request, payload), luck.novel);
      container := later;
      trace.Forwards(pid, request, payload, luck.novel);
      if luck.lostAfter {
        trace.Dies(pid);
        return None;
      }
      return Some(answer);
    }

    // The outcome of a replayed command is recorded.
    method ReplayFinalize(queue: seq<Command>, ghost replayed: seq<string>, response: Receipt, ghost pid: nat)
      requires Valid() && pid in trace.world.processes && queue != []
      requires trace.world.processes[pid] == Replay(queue, replayed, Heard(response))
      requires Find(journal.storage.log.commands, queue[0].draft.operationId).Some?
      modifies journal.storage, trace
      ensures Valid() && old(trace.history) <= trace.history
      ensures journal.storage.log ==
        Finalize(old(journal.storage.log), queue[0].draft.operationId, TerminalStatus(response), response).1
      ensures trace.world ==
        Become(old(trace.world).(log := journal.storage.log), pid, Replay(queue, replayed, Recorded))
    {
      var finalized := journal.Finalize(queue[0].draft.operationId, TerminalStatus(response), response);
      trace.ReplayFinishes(pid, queue, replayed, response, journal.storage.log);
    }

    // Its body is deleted.
    method ReplayClear(queue: seq<Command>, ghost replayed: seq<string>, ghost pid: nat)
      requires Valid() && pid in trace.world.processes && queue != []
      requires trace.world.processes[pid] == Replay(queue, replayed, Recorded)
      modifies this`objects, trace
      ensures Valid() && old(trace.history) <= trace.history
      ensures objects == match queue[0].draft.bodyRef
                         case None => old(objects)
                         case Some(ref) => old(objects) - {ref}
      ensures trace.world == Become(
        old(trace.world).(objects := objects), pid,
        Replay(queue[1..], replayed + [queue[0].draft.operationId], Next))
    {
      var draft := queue[0].draft;
      if draft.bodyRef.Some? {
        objects := objects - {draft.bodyRef.value};
      }
      trace.ReplayClears(pid, queue, replayed);
    }

    // The replay `rival` is at the command of this operation.
    ghost predicate Contends(rival: Rival, request: Request, ref: string)
      reads trace
    {
      && rival.pid in trace.world.processes
      && trace.world.processes[rival.pid] == Replay(rival.queue, rival.replayed, Next)
      && rival.queue != [] && rival.queue[0].draft.operationId == request.operationId
      && rival.queue[0].draft.bodyRef == Some(ref)
    }

    // The rival loads and forwards the staged body.
    method OvertakeForward(request: Request, ref: string, rival: Rival, ghost pid: nat) returns (response: Receipt)
      requires Valid() && pid in trace.world.processes && pid != rival.pid && Contends(rival, request, ref)
      requires ref in objects
      modifies this`container, trace
      ensures Valid() && old(trace.history) <= trace.history && trace.world.replies == old(trace.world.replies)
      ensures pid in trace.world.processes && trace.world.processes[pid] == old(trace.world.processes[pid])
      ensures rival.pid in trace.world.processes
      ensures trace.world.processes[rival.pid] == Replay(rival.queue, rival.replayed, Heard(response))
    {
      var payload := objects[ref];
      trace.Loads(rival.pid, rival.queue, rival.replayed, Some(payload));
      var novel: Receipt := *;
      var (answer, later) := Deliver(container, ReplayMessage(tenant, rival.queue[0].draft, payload), novel);
      container := later;
      trace.ReplayForwards(rival.pid, rival.queue, rival.replayed, payload, novel);
      response := answer;
    }

    // It records the answer.
    method OvertakeFinalize(request: Request, rival: Rival, response: Receipt, ghost pid: nat)
      requires Valid() && pid in trace.world.processes && pid != rival.pid && rival.pid in trace.world.processes
      requires trace.world.processes[rival.pid] == Replay(rival.queue, rival.replayed, Heard(response))
      requires rival.queue != [] && rival.queue[0].draft.operationId == request.operationId
      requires Awaiting(journal.storage.log, request.operationId)
      modifies journal.storage, trace
      ensures Valid() && old(trace.history) <= trace.history && trace.world.replies == old(trace.world.replies)
      ensures trace.world.processes ==
        old(trace.world.processes)[rival.pid := Replay(rival.queue, rival.replayed, Recorded)]
      ensures Concluded(journal.storage.log, request.operationId)
    {
      ConcludedAfter(journal.storage.log, request.operationId, response);
      ReplayFinalize(rival.queue, rival.replayed, response, rival.pid);
    }

    // It deletes the body.
    method OvertakeClear(ref: string, rival: Rival, ghost pid: nat)
      requires Valid() && pid in trace.world.processes && pid != rival.pid && rival.pid in trace.world.processes
      requires trace.world.processes[rival.pid] == Replay(rival.queue, rival.replayed, Recorded)
      requires rival.queue != [] && rival.queue[0].draft.bodyRef == Some(ref)
      modifies this`objects, trace
      ensures Valid() && old(trace.history) <= trace.history && trace.world.replies == old(trace.world.replies)
      ensures pid in trace.world.processes && trace.world.processes[pid] == old(trace.world.processes[pid])
      ensures SameBut(ref, old(objects), objects) && ref !in objects
    {
      SameButRemoved(ref, objects);
      ReplayClear(rival.queue, rival.replayed, rival.pid);
    }

    method OvertakeEnd(request: Request, ref: string, rival: Rival, response: Receipt, ghost pid: nat)
      requires Valid() && pid in trace.world.processes && pid != rival.pid && rival.pid in trace.world.processes
      requires trace.world.processes[rival.pid] == Replay(rival.queue, rival.replayed, Heard(response))
      requires rival.queue != [] && rival.queue[0].draft.operationId == request.operationId
      requires rival.queue[0].draft.bodyRef == Some(ref) && Awaiting(journal.storage.log, request.operationId)
      modifies this`objects, journal.storage, trace
      ensures Valid() && old(trace.history) <= trace.history && trace.world.replies == old(trace.world.replies)
      ensures pid in trace.world.processes && trace.world.processes[pid] == old(trace.world.processes[pid])
      ensures SameBut(ref, old(objects), objects) && ref !in objects
      ensures Concluded(journal.storage.log, request.operationId)
    {
      OvertakeFinalize(request, rival, response, pid);
      OvertakeClear(ref, rival, pid);
    }

    // All of this between the upload of a request and its reading back.
    method Overtake(request: Request, ref: string, rival: Rival, ghost pid: nat)
      requires Valid() && pid in trace.world.processes && pid != rival.pid && Contends(rival, request, ref)
      requires ref in objects && Awaiting(journal.storage.log, request.operationId)
      modifies this, journal.storage, trace
      ensures Valid() && old(trace.history) <= trace.history && trace.world.replies == old(trace.world.replies)
      ensures pid in trace.world.processes && trace.world.processes[pid] == old(trace.world.processes[pid])
      ensures SameBut(ref, old(objects), objects) && ref !in objects
      ensures Concluded(journal.storage.log, request.operationId)
    {
      var response := OvertakeForward(request, ref, rival, pid);
      OvertakeEnd(request, ref, rival, response, pid);
    }

    method Stage(request: Request, ref: string, ghost pid: nat)
      requires Valid() && pid in trace.world.processes && trace.world.processes[pid] == Serve(request, Ready)
      requires request.binary && ref == naming(request.tenantId, request.operationId)
      modifies this`objects, trace
      ensures Valid() && old(trace.history) <= trace.history && trace.world.replies == old(trace.world.replies)
      ensures objects == old(objects)[ref := request.body]
      ensures trace.world.processes == old(trace.world.processes)[pid := Serve(request, Staged)]
    {
      objects := objects[ref := request.body];
      trace.Stages(pid, request, ref);
    }

    method ReadBack(request: Request, ref: string, ghost pid: nat) returns (payload: Option<string>)
      requires Valid() && pid in trace.world.processes && trace.world.processes[pid] == Serve(request, Staged)
      requires ref == naming(request.tenantId, request.operationId)
      modifies trace
      ensures Valid() && old(trace.history) <= trace.history && trace.world.replies == old(trace.world.replies)
      ensures payload == if ref in objects then Some(objects[ref]) else None
      ensures payload.Some? ==>
        pid in trace.world.processes && trace.world.processes[pid] == Serve(request, Fetched(payload.value))
    {
      payload := if ref in objects then Some(objects[ref]) else None;
      trace.Fetches(pid, request, ref);
    }

    // The upload of a binary body and the read that follows it: a replay that was at this command may have finalized
    // it and deleted the body in between.
    method Upload(request: Request, ref: string, rival: Option<Rival>, luck: Luck, ghost pid: nat)
      returns (payload: Option<string>)
      requires Valid() && pid in trace.world.processes && trace.world.processes[pid] == Serve(request, Ready)
      requires request.binary && ref == naming(request.tenantId, request.operationId)
      requires Awaiting(journal.storage.log, request.operationId)
      requires rival.Some? ==> rival.value.pid != pid && Contends(rival.value, request, ref)
      modifies this, journal.storage, trace
      ensures Valid() && old(trace.history) <= trace.history
      ensures SameBut(ref, old(objects), objects)
      ensures trace.world.replies == old(trace.world.replies)
      ensures payload.Some? ==>
        && pid in trace.world.processes && trace.world.processes[pid] == Serve(request, Fetched(payload.value))
        && Awaiting(journal.storage.log, request.operationId) && ref in objects && objects[ref] == request.body
        && payload.value == request.body && container == old(container)
      ensures payload.None? <==> luck.overtaken && rival.Some?
      ensures payload.None? ==>
        rival.Some? && Concluded(journal.storage.log, request.operationId) && ref !in objects
    {
      Stage(request, ref, pid);
      if luck.overtaken && rival.Some? {
        Overtake(request, ref, rival.value, pid);
      }
      SameButPut(ref, old(objects), request.body, objects);
      payload := ReadBack(request, ref, pid);
    }

    // `finalize`; a text request is answered with it.
    method Conclude(request: Request, response: Receipt, ghost pid: nat)
      requires Valid() && pid in trace.world.processes
      requires trace.world.processes[pid] == Serve(request, Answered(response))
      requires Find(trace.world.log.commands, request.operationId).Some?
      modifies journal.storage, trace
      ensures Valid() && old(trace.history) <= trace.history
      ensures trace.world == if request.binary
        then Become(old(trace.world).(log := journal.storage.log), pid, Serve(request, Settled(response)))
        else Answer(old(trace.world).(log := journal.storage.log), pid, request, response)
    {
      var finalized := journal.Finalize(request.operationId, TerminalStatus(response), response);
      trace.Finishes(pid, request, response, journal.storage.log);
    }

    method Clear(request: Request, receipt: Receipt, ref: string, ghost pid: nat)
      requires Valid() && pid in trace.world.processes && trace.world.processes[pid] == Serve(request, Settled(receipt))
      requires ref == naming(request.tenantId, request.operationId)
      modifies this`objects, trace
      ensures Valid() && old(trace.history) <= trace.history
      ensures SameBut(ref, old(objects), objects) && ref !in objects
      ensures trace.world.replies == old(trace.world.replies) + [Reply(DraftOf(naming, request), receipt)]
    {
      objects := objects - {ref};
      trace.Clears(pid, request, receipt, ref);
    }

    // What is left of a text request once it is journaled: forward, hook, finalize.
    method ForwardText(request: Request, luck: Luck, ghost pid: nat) returns (outcome: Outcome)
      requires Valid() && pid in trace.world.processes && trace.world.processes[pid] == Serve(request, Ready)
      requires !request.binary && Awaiting(journal.storage.log, request.operationId)
      modifies this`container, journal.storage, trace
      ensures Valid() && old(trace.history) <= trace.history
      ensures outcome.Receipted? || outcome.Failed? || outcome.Unrecorded?
      ensures trace.world.replies ==
        old(trace.world.replies) + if outcome.Receipted? then [Reply(DraftOf(naming, request), outcome.receipt)] else []
      ensures !outcome.Receipted? ==> Awaiting(journal.storage.log, request.operationId)
      ensures outcome.Unrecorded? ==> request.operationId in container.memo
      ensures outcome.Failed? <==> luck.Lost() || luck.hookFails
      ensures outcome.Unrecorded? <==> !luck.Lost() && !luck.hookFails && luck.storeFails
      ensures container == Told(old(container), LiveMessage(request, request.body), luck)
      ensures outcome.Receipted? ==>
        outcome.receipt == Deliver(old(container), LiveMessage(request, request.body), luck.novel).0
    {
      var response := Send(request, request.body, luck, pid);
      if response.None? {
        return Failed;
      }
      if luck.hookFails || luck.storeFails {
        trace.Dies(pid);
        return if luck.hookFails then Failed else Unrecorded;
      }
      Conclude(request, response.value, pid);
      return Receipted(response.value);
    }

    // Whatever was journaled and is not answered is still pending, and a replay will send it.
    method ForwardWithJournal(request: Request, luck: Luck, ghost pid: nat) returns (outcome: Outcome)
      requires Valid() && pid !in trace.world.processes && !request.binary && request.tenantId == tenant
      modifies this`container, journal.storage, trace
      ensures Valid() && old(trace.history) <= trace.history
      ensures outcome.Receipted? ==>
        trace.world.replies == old(trace.world.replies) + [Reply(DraftOf(naming, request), outcome.receipt)]
      ensures outcome.Passed? || outcome.Refused? || outcome.Conflict? ==>
        journal.storage.log == old(journal.storage.log) && container == old(container)
      ensures outcome.Failed? || outcome.Unrecorded? ==>
        Awaiting(journal.storage.log, request.operationId) && trace.world.replies == old(trace.world.replies)
      ensures outcome.Unrecorded? ==> request.operationId in container.memo
      ensures Decides(outcome, old(journal.storage.log), tenant, naming, request)
      ensures !outcome.BodyGone?
      // What a journaled request gets depends on what befalls it alone: the stored receipt, or the container's answer.
      ensures var proceeds := Proceeds(old(journal.storage.log), tenant, naming, request);
        && (outcome.Failed? <==> proceeds && (luck.Lost() || luck.hookFails))
        && (outcome.Unrecorded? <==> proceeds && !luck.Lost() && !luck.hookFails && luck.storeFails)
        && container == if proceeds then Told(old(container), LiveMessage(request, request.body), luck)
                        else old(container)
      ensures outcome.Receipted? ==>
        if Proceeds(old(journal.storage.log), tenant, naming, request)
        then outcome.receipt == Deliver(old(container), LiveMessage(request, request.body), luck.novel).0
        else Concludes(old(journal.storage.log), request.operationId, outcome.receipt)
    {
      var early := Begin(request, pid);
      if early.Some? {
        outcome := early.value;
      } else {
        outcome := ForwardText(request, luck, pid);
        AdmittedDecides(outcome, old(journal.storage.log), tenant, naming, request);
      }
    }

    // `finalize` for a binary request, and the removal of its body.
    method ConcludeStaged(request: Request, response: Receipt, ref: string, ghost pid: nat)
      requires Valid() && pid in trace.world.processes
      requires trace.world.processes[pid] == Serve(request, Answered(response))
      requires Find(trace.world.log.commands, request.operationId).Some?
      requires request.binary && ref == naming(request.tenantId, request.operationId)
      modifies this`objects, journal.storage, trace
      ensures Valid() && old(trace.history) <= trace.history
      ensures SameBut(ref, old(objects), objects) && ref !in objects
      ensures trace.world.replies == old(trace.world.replies) + [Reply(DraftOf(naming, request), response)]
    {
      Conclude(request, response, pid);
      Clear(request, response, ref, pid);
    }

    // What is left of a binary request once its body has been read back: forward, finalize, clean up.
    method ForwardFetched(request: Request, payload: string, ref: string, luck: Luck, ghost pid: nat)
      returns (outcome: Outcome)
      requires Valid() && pid in trace.world.processes && trace.world.processes[pid] == Serve(request, Fetched(payload))
      requires Awaiting(journal.storage.log, request.operationId) && ref in objects && request.binary
      requires ref == naming(request.tenantId, request.operationId)
      modifies this, journal.storage, trace
      ensures Valid() && old(trace.history) <= trace.history
      ensures outcome.Receipted? || outcome.Failed?
      ensures trace.world.replies ==
        old(trace.world.replies) + if outcome.Receipted? then [Reply(DraftOf(naming, request), outcome.receipt)] else []
      ensures outcome.Failed? ==>
        Awaiting(journal.storage.log, request.operationId) && objects == old(objects)
      ensures outcome.Receipted? ==> SameBut(ref, old(objects), objects) && ref !in objects
      ensures outcome.Failed? <==> luck.Lost() || luck.storeFails
      ensures container == Told(old(container), LiveMessage(request, payload), luck)
      ensures outcome.Receipted? ==>
        outcome.receipt == Deliver(old(container), LiveMessage(request, payload), luck.novel).0
    {
      var response := Send(request, payload, luck, pid);
      if response.None? {
        return Failed;
      }
      if luck.storeFails {
        trace.Dies(pid);
        return Failed;
      }
      ConcludeStaged(request, response.value, ref, pid);
      return Receipted(response.value);
    }

    // What is left of a binary request once it is journaled: stage, forward, finalize, clean up.
    method ForwardStaged(request: Request, ref: string, rival: Option<Rival>, luck: Luck, ghost pid: nat)
      returns (outcome: Outcome)
      requires Valid() && pid in trace.world.processes && trace.world.processes[pid] == Serve(request, Ready)
      requires Awaiting(journal.storage.log, request.operationId)
      requires request.binary && ref == naming(request.tenantId, request.operationId)
      requires rival.Some? ==> rival.value.pid != pid && Contends(rival.value, request, ref)
      modifies this, journal.storage, trace
      ensures Valid() && old(trace.history) <= trace.history
      ensures outcome.Receipted? || outcome.Failed? || outcome.BodyGone?
      ensures trace.world.replies ==
        old(trace.world.replies) + if outcome.Receipted? then [Reply(DraftOf(naming, request), outcome.receipt)] else []
      ensures outcome.Failed? ==> Awaiting(journal.storage.log, request.operationId)
      ensures outcome.BodyGone? ==> rival.Some? && Concluded(journal.storage.log, request.operationId)
      ensures SameBut(ref, old(objects), objects)
      ensures if outcome.Failed? then ref in objects && objects[ref] == request.body else ref !in objects
      ensures outcome.BodyGone? <==> luck.overtaken && rival.Some?
      ensures outcome.Failed? ==> luck.Lost() || luck.storeFails
      ensures outcome.Receipted? ==> !luck.Lost() && !luck.storeFails
      ensures !outcome.BodyGone? ==> container == Told(old(container), LiveMessage(request, request.body), luck)
      ensures outcome.Receipted? ==>
        outcome.receipt == Deliver(old(container), LiveMessage(request, request.body), luck.novel).0
    {
      var payload := Upload(request, ref, rival, luck, pid);
      outcome := BodyGone;
      if payload.Some? {
        outcome := ForwardFetched(request, payload.value, ref, luck, pid);
      }
    }

    // `rival` is a replay that has come to the command of this operation, if there is one.
    method ForwardBinaryWithJournal(request: Request, rival: Option<Rival>, luck: Luck, ghost pid: nat)
      returns (outcome: Outcome)
      requires Valid() && pid !in trace.world.processes && request.binary && request.tenantId == tenant
      requires rival.Some? ==> Contends(rival.value, request, naming(tenant, request.operationId))
      modifies this, journal.storage, trace
      ensures Valid() && old(trace.history) <= trace.history
      ensures outcome.Receipted? ==>
        trace.world.replies == old(trace.world.replies) + [Reply(DraftOf(naming, request), outcome.receipt)]
      ensures outcome.Passed? || outcome.Refused? || outcome.Conflict? ==>
        journal.storage.log == old(journal.storage.log) && container == old(container) && objects == old(objects)
      ensures outcome.Failed? ==>
        Awaiting(journal.storage.log, request.operationId) && trace.world.replies == old(trace.world.replies)
      ensures outcome.BodyGone? ==>
        && rival.Some? && Concluded(journal.storage.log, request.operationId)
        && trace.world.replies == old(trace.world.replies)
      ensures Decides(outcome, old(journal.storage.log), tenant, naming, request)
      ensures !outcome.Unrecorded?
      // No other object is touched; a lost request leaves its body behind, an answered one does not, and a body that
      // could not be read back is gone.
      ensures var ref := naming(tenant, request.operationId);
        && SameBut(ref, old(objects), objects)
        && (outcome.Failed? ==> ref in objects && objects[ref] == request.body)
        && (outcome.BodyGone? ==> ref !in objects)
        && (outcome.Receipted? ==> ref !in objects || objects == old(objects))
      ensures var proceeds := Proceeds(old(journal.storage.log), tenant, naming, request);
        && (outcome.BodyGone? <==> proceeds && luck.overtaken && rival.Some?)
        && (outcome.Failed? <==> proceeds && !outcome.BodyGone? && (luck.Lost() || luck.storeFails))
        && (!outcome.BodyGone? ==>
              container == if proceeds then Told(old(container), LiveMessage(request, request.body), luck)
                           else old(container))
      ensures outcome.Receipted? ==>
        if Proceeds(old(journal.storage.log), tenant, naming, request)
        then outcome.receipt == Deliver(old(container), LiveMessage(request, request.body), luck.novel).0
        else Concludes(old(journal.storage.log), request.operationId, outcome.receipt)
    {
      var early := Begin(request, pid);
      if early.Some? {
        SameButItself(naming(tenant, request.operationId), objects);
        return early.value;
      }
      outcome := ForwardStaged(request, naming(tenant, request.operationId), rival, luck, pid);
      AdmittedDecides(outcome, old(journal.storage.log), tenant, naming, request);
    }

    // The body of the first pending command, which may have gone from the object store.
    method Load(queue: seq<Command>, ghost replayed: seq<string>, ghost pid: nat) returns (payload: Option<string>)
      requires Valid() && pid in trace.world.processes && trace.world.processes[pid] == Replay(queue, replayed, Next)
      requires queue != []
      modifies trace
      ensures Valid() && old(trace.history) <= trace.history && trace.world.replies == old(trace.world.replies)
      ensures payload.None? <==> queue[0].draft.bodyRef.Some? && queue[0].draft.bodyRef.value !in objects
      ensures payload.Some? ==>
        && pid in trace.world.processes
        && trace.world.processes[pid] == Replay(queue, replayed, Loaded(payload.value))
    {
      var draft := queue[0].draft;
      if draft.bodyRef.None? {
        payload := Some(draft.body);
      } else {
        payload := if draft.bodyRef.value in objects then Some(objects[draft.bodyRef.value]) else None;
      }
      trace.Loads(pid, queue, replayed, payload);
    }

    // One pending command, the first one: body, container, journal, clean-up.
    method ReplayOne(queue: seq<Command>, luck: Luck, ghost replayed: seq<string>, ghost sent: seq<Message>,
                     ghost pid: nat)
      returns (outcome: ItemOutcome)
      requires Valid() && pid in trace.world.processes && trace.world.processes[pid] == Replay(queue, replayed, Next)
      requires queue == PendingOf(journal.storage.log.commands) && queue != [] && Named(journal.storage.log)
      requires Sent(sent, replayed, container.seen)
      modifies this, journal.storage, trace
      ensures Valid() && old(trace.history) <= trace.history
      ensures trace.world.replies == old(trace.world.replies)
      ensures |journal.storage.log.commands| == old(|journal.storage.log.commands|) && Named(journal.storage.log)
      ensures PendingOf(journal.storage.log.commands) == if outcome.Done? then queue[1..] else queue
      ensures outcome.Done? ==>
        && pid in trace.world.processes
        && trace.world.processes[pid] == Replay(queue[1..], replayed + [queue[0].draft.operationId], Next)
        && Sent(sent, replayed + [queue[0].draft.operationId], container.seen)
      ensures outcome.NoBody? ==>
        queue[0].draft.bodyRef.Some? && queue[0].draft.bodyRef.value !in objects && container == old(container)
      ensures (outcome.Done? ==> !luck.Lost()) && (outcome.Lost? ==> luck.Lost())
    {
      var payload := Load(queue, replayed, pid);
      if payload.None? {
        return NoBody;
      }
      var response := Resend(queue, luck, replayed, payload.value, pid);
      if response.None? {
        return Lost;
      }
      SentOneMore(sent, replayed, old(container.seen), queue[0].draft.operationId, container.seen);
      Settle(queue, replayed, response.value, pid);
      outcome := Done;
    }

    // The replayed message and its answer; the process may be lost before or after it took effect.
    method Resend(queue: seq<Command>, luck: Luck, ghost replayed: seq<string>, payload: string, ghost pid: nat)
      returns (response: Option<Receipt>)
      requires Valid() && pid in trace.world.processes && queue != []
      requires trace.world.processes[pid] == Replay(queue, replayed, Loaded(payload))
      modifies this`container, trace
      ensures Valid() && old(trace.history) <= trace.history && trace.world.replies == old(trace.world.replies)
      ensures response.Some? <==> !luck.Lost()
      ensures response.Some? ==>
        && pid in trace.world.processes
        && trace.world.processes[pid] == Replay(queue, replayed, Heard(response.value))
        && Sent(old(container.seen), [queue[0].draft.operationId], container.seen)
    {
      if luck.lostBefore {
        trace.Dies(pid);
        return None;
      }
      var (answer, later) := Deliver(container, ReplayMessage(tenant, queue[0].draft, payload), luck.novel);
      container := later;
      trace.ReplayForwards(pid, queue, replayed, payload, luck.novel);
      if luck.lostAfter {
        trace.Dies(pid);
        return None;
      }
      return Some(answer);
    }

    method Settle(queue: seq<Command>, ghost replayed: seq<string>, response: Receipt, ghost pid: nat)
      requires Valid() && pid in trace.world.processes
      requires trace.world.processes[pid] == Replay(queue, replayed, Heard(response))
      requires queue == PendingOf(journal.storage.log.commands) && queue != [] && Named(journal.storage.log)
      modifies this`objects, journal.storage, trace
      ensures Valid() && old(trace.history) <= trace.history && trace.world.replies == old(trace.world.replies)
      ensures |journal.storage.log.commands| == old(|journal.storage.log.commands|) && Named(journal.storage.log)
      ensures PendingOf(journal.storage.log.commands) == queue[1..]
      ensures pid in trace.world.processes
      ensures trace.world.processes[pid] == Replay(queue[1..], replayed + [queue[0].draft.operationId], Next)
    {
      FinalizeFirst(journal.storage.log, response);
      ReplayFinalize(queue, replayed, response, pid);
      ReplayClear(queue, replayed, pid);
    }

    // The pending tail, oldest first. Without a concurrent `prepare` a run that meets no missing body and no dead
    // container leaves nothing pending and the mark at the last sequence; any other run has finalized
    // exactly a prefix, and the mark is just before the command it stopped at.
    method ReplayPending(luck: nat -> Luck, ghost pid: nat) returns (outcome: ReplayOutcome)
      requires Valid() && Injective(naming) && pid !in trace.world.processes
      modifies this, journal.storage, trace
      ensures Valid() && old(trace.history) <= trace.history
      ensures |journal.storage.log.commands| == old(|journal.storage.log.commands|)
      ensures Increasing(PendingOf(old(journal.storage.log.commands)))
      ensures Stops(outcome, PendingOf(old(journal.storage.log.commands)), journal.storage.log, objects)
      ensures Meets(outcome, |PendingOf(old(journal.storage.log.commands))|, luck)
      ensures outcome.Completed? ==> Sent(old(container.seen), outcome.replayed, container.seen)
    {
      ReachedNamed(naming, tenant, trace.history);
      var pending := journal.Pending();
      trace.Wakes(pid);
      PendingIncreasing(journal.storage.log);
      outcome := ReplayAll(pending, luck, pid);
    }

    // The state of the replay loop before item `i`: the items before it are finalized and sent, the rest is pending.
    ghost predicate Replaying(pending: seq<Command>, i: nat, replayed: seq<string>, sent: seq<Message>, pid: nat)
      reads this, journal.storage, trace
    {
      && Valid() && Named(journal.storage.log)
      && i <= |pending| && PendingOf(journal.storage.log.commands) == pending[i..]
      && pid in trace.world.processes && trace.world.processes[pid] == Replay(pending[i..], replayed, Next)
      && replayed == OperationIds(pending)[..i] && Sent(sent, replayed, container.seen)
    }

    ghost predicate StoppedWith(outcome: ReplayOutcome, pending: seq<Command>, luck: nat -> Luck)
      reads this, journal.storage
    {
      Stops(outcome, pending, journal.storage.log, objects) && Meets(outcome, |pending|, luck)
    }

    method ReplayItem(pending: seq<Command>, i: nat, luck: nat -> Luck, ghost replayed: seq<string>,
                      ghost sent: seq<Message>, ghost pid: nat)
      returns (item: ItemOutcome)
      requires Replaying(pending, i, replayed, sent, pid) && i < |pending| && Spared(luck, i)
      modifies this, journal.storage, trace
      ensures Valid() && old(trace.history) <= trace.history
      ensures |journal.storage.log.commands| == old(|journal.storage.log.commands|)
      ensures item.Done? ==> Replaying(pending, i + 1, replayed + [pending[i].draft.operationId], sent, pid)
      ensures item.Done? ==> Spared(luck, i + 1)
      ensures item.NoBody? ==> StoppedWith(BodyMissing(i), pending, luck)
      ensures item.Lost? ==> StoppedWith(Interrupted(i), pending, luck)
    {
      OneFurther(pending, i);
      item := ReplayOne(pending[i..], luck(i), replayed, sent, pid);
      if item.Done? {
        SparedNext(luck, i);
      } else {
        MarkBefore(pending, i, journal.storage.log);
      }
    }

    lemma ReplayedAll(pending: seq<Command>, luck: nat -> Luck, replayed: seq<string>, sent: seq<Message>, pid: nat)
      requires Replaying(pending, |pending|, replayed, sent, pid) && Spared(luck, |pending|)
      ensures Valid() && StoppedWith(Completed(replayed), pending, luck) && Sent(sent, replayed, container.seen)
    {
      AllReplayed(pending, replayed, journal.storage.log, objects, luck);
    }

    // The loop over the pending list.
    method ReplayAll(pending: seq<Command>, luck: nat -> Luck, ghost pid: nat) returns (outcome: ReplayOutcome)
      requires Replaying(pending, 0, [], container.seen, pid)
      modifies this, journal.storage, trace
      ensures Valid() && old(trace.history) <= trace.history
      ensures |journal.storage.log.commands| == old(|journal.storage.log.commands|)
      ensures StoppedWith(outcome, pending, luck)
      ensures outcome.Completed? ==> Sent(old(container.seen), outcome.replayed, container.seen)
    {
      var replayed := [];
      var i := 0;
      ghost var (history, n, sent) := (trace.history, |journal.storage.log.commands|, container.seen);
      while i < |pending|
        invariant 0 <= i <= |pending|
        invariant history <= trace.history && |journal.storage.log.commands| == n
        invariant Replaying(pending, i, replayed, sent, pid) && Spared(luck, i)
      {
        var item := ReplayItem(pending, i, luck, replayed, sent, pid);
        if item.NoBody? {
          return BodyMissing(i);
        } else if item.Lost? {
          return Interrupted(i);
        }
        replayed := replayed + [pending[i].draft.operationId];
        i := i + 1;
      }
      ReplayedAll(pending, luck, replayed, sent, pid);
      return Completed(replayed);
    }
  }

  // A tenant's runtime on an empty store, with the key layout and the object names in use.
  method Deploy(tenant: string) returns (runtime: TenantRuntime)
    ensures InUse(runtime) && fresh(runtime) && fresh(runtime.journal.storage) && fresh(runtime.trace)
    ensures runtime.tenant == tenant && runtime.trace.world == Start(tenant)
  {
    Journal.LayoutApart();
    var storage := new Journal.Storage(Journal.Layout());
    runtime := new TenantRuntime(storage, BodyRef, tenant);
  }

  ghost predicate InUse(runtime: TenantRuntime)
    reads runtime, runtime.journal.storage, runtime.trace
  {
    runtime.Valid() && runtime.naming == BodyRef && runtime.journal.storage.keys == Journal.Layout()
  }

  // Whatever its methods did, such a runtime is in a reached world, and its store is the journal of that world.
  lemma RuntimeReached(runtime: TenantRuntime)
    requires InUse(runtime)
    ensures var w := Reached(runtime.tenant, runtime.trace.history);
      && runtime.trace.world == w && runtime.objects == w.objects && runtime.container == w.container
      && Journal.Represents(Journal.Layout(), runtime.journal.storage.entries, w.log)
  {
  }

  // Exactly-once acknowledgement down to the raw store: the receipt of every reply stands under the key of its
  // operation, and the operation took effect exactly once.
  lemma AcknowledgedInStore(runtime: TenantRuntime, reply: Reply) returns (record: Command, effect: Message)
    requires InUse(runtime) && reply in runtime.trace.world.replies
    ensures Journal.GetCommand(runtime.journal.storage.entries, "journal:command:" + reply.draft.operationId) ==
            Some(record)
    ensures Terminal(record) && record.receipt == Some(reply.receipt) && SameFingerprint(record.draft, reply.draft)
    ensures Count(runtime.container.effects, reply.draft.operationId) == 1
    ensures effect in runtime.container.effects && Matches(effect, record.draft)
  {
    RuntimeReached(runtime);
    var i;
    i, effect := AcknowledgedExactlyOnce(runtime.tenant, runtime.trace.history, reply);
    record := runtime.trace.world.log.commands[i];
  }

  // Where a replay of the pending list `pending` can stop.
  ghost predicate Stops(outcome: ReplayOutcome, pending: seq<Command>, log: Log, objects: map<string, string>) {
    match outcome
    case Completed(replayed) =>
      PendingOf(log.commands) == [] && log.mark == |log.commands| && replayed == OperationIds(pending)
    case BodyMissing(index) =>
      && index < |pending| && PendingOf(log.commands) == pending[index..] && log.mark == pending[index].sequence - 1
      && pending[index].draft.bodyRef.Some? && pending[index].draft.bodyRef.value !in objects
    case Interrupted(index) =>
      index < |pending| && PendingOf(log.commands) == pending[index..] && log.mark == pending[index].sequence - 1
  }

  // A replay is interrupted exactly where its luck runs out; `luck` is that of each item.
  ghost predicate Meets(outcome: ReplayOutcome, n: nat, luck: nat -> Luck) {
    match outcome
    case Completed(_) => Spared(luck, n)
    case BodyMissing(index) => Spared(luck, index)
    case Interrupted(index) => Spared(luck, index) && luck(index).Lost()
  }

  // The first `n` items have luck.
  ghost predicate Spared(luck: nat -> Luck, n: nat) { forall i: nat | i < n :: !luck(i).Lost() }

  lemma SparedNext(luck: nat -> Luck, n: nat)
    requires Spared(luck, n) && !luck(n).Lost()
    ensures Spared(luck, n + 1)
  {
  }

  lemma AllReplayed(pending: seq<Command>, replayed: seq<string>, log: Log, objects: map<string, string>,
                    luck: nat -> Luck)
    requires Inv(log) && Named(log) && PendingOf(log.commands) == pending[|pending|..]
    requires replayed == OperationIds(pending)[..|pending|] && Spared(luck, |pending|)
    ensures Stops(Completed(replayed), pending, log, objects) && Meets(Completed(replayed), |pending|, luck)
  {
    NamedMarkIsExact(log);
    assert OperationIds(pending)[..|pending|] == OperationIds(pending);
  }

  // The container after a message that may be lost on the way.
  function Told(container: Container, message: Message, luck: Luck): Container {
    if luck.lostBefore then container else Deliver(container, message, luck.novel).1
  }

  // The operation has this receipt.
  ghost predicate Concludes(log: Log, operationId: string, receipt: Receipt) {
    var found := Find(log.commands, operationId);
    found.Some? && Terminal(log.commands[found.value]) && log.commands[found.value].receipt == Some(receipt)
  }

  // The request is journaled, if it is not already, and sent on: it is admitted, the first under its id or a
  // repetition, and there is no receipt yet.
  ghost predicate Proceeds(log: Log, tenant: string, naming: Naming, request: Request) {
    && Admit(request) == Journaled && !Clashes(log, tenant, naming, request)
    && !Concluded(log, request.operationId)
  }

  lemma PreparedConcluded(log: Log, tenant: string, draft: Draft)
    requires Prepare(log, tenant, draft).0.Ok? && Inv(log)
    ensures var p := Prepare(log, tenant, draft).0.value;
      if p.reused && Terminal(p.command) && p.command.receipt.Some?
      then Concludes(log, draft.operationId, p.command.receipt.value) else !Concluded(log, draft.operationId)
  {
  }

  // What is decided at once: who passes through, who is refused and how, and who meets another request's id.
  ghost predicate Decides(outcome: Outcome, log: Log, tenant: string, naming: Naming, request: Request) {
    && (outcome == Passed <==> PassesThrough(request))
    && (forall status, code :: outcome == Refused(status, code) <==> RefusedWith(request, status, code))
    && (outcome == Conflict <==> Clashes(log, tenant, naming, request))
  }

  lemma AdmittedDecides(outcome: Outcome, log: Log, tenant: string, naming: Naming, request: Request)
    requires Admit(request) == Journaled && !outcome.Passed? && !outcome.Refused?
    requires outcome == Conflict <==> Clashes(log, tenant, naming, request)
    ensures Decides(outcome, log, tenant, naming, request)
  {
    DecisionExactly(request);
  }

  // The request would be journaled, but its operation id has been used for another one.
  ghost predicate Clashes(log: Log, tenant: string, naming: Naming, request: Request) {
    Admit(request) == Journaled && Prepare(log, tenant, DraftOf(naming, request)).0.Err?
  }

  // The operation is journaled and has no outcome yet.
  ghost predicate Awaiting(log: Log, operationId: string) {
    var found := Find(log.commands, operationId);
    found.Some? && !Terminal(log.commands[found.value])
  }

  // The operation has its outcome, and a retry will be answered with it.
  ghost predicate Concluded(log: Log, operationId: string) {
    var found := Find(log.commands, operationId);
    found.Some? && Terminal(log.commands[found.value]) && log.commands[found.value].receipt.Some?
  }

  lemma ConcludedAfter(log: Log, operationId: string, response: Receipt)
    requires Inv(log) && Awaiting(log, operationId)
    ensures var (r, later) := Finalize(log, operationId, TerminalStatus(response), response);
      r.Ok? && Concluded(later, operationId)
  {
    var (r, later) := Finalize(log, operationId, TerminalStatus(response), response);
    FinalizeKeeps(log, operationId, TerminalStatus(response), response);
    FindLater(log, later, operationId);
  }

  ghost predicate SameBut(ref: string, before: map<string, string>, after: map<string, string>) {
    forall other | other != ref ::
      (other in before <==> other in after) && (other in before ==> before[other] == after[other])
  }

  lemma OneFurther(pending: seq<Command>, i: nat)
    requires i < |pending|
    ensures pending[i..] != [] && pending[i..][0] == pending[i] && pending[i..][1..] == pending[i + 1..]
    ensures OperationIds(pending)[..i + 1] == OperationIds(pending)[..i] + [pending[i].draft.operationId]
  {
  }

  lemma MarkBefore(pending: seq<Command>, i: nat, log: Log)
    requires Inv(log) && Named(log) && i < |pending| && PendingOf(log.commands) == pending[i..]
    ensures log.mark == pending[i].sequence - 1
  {
    NamedMarkIsExact(log);
  }

  lemma Overwritten<K, V>(m: map<K, V>, k: K, a: V, b: V)
    ensures m[k := a][k := b] == m[k := b]
  {
  }

  lemma SameButItself(ref: string, objects: map<string, string>)
    ensures SameBut(ref, objects, objects)
  {
  }

  lemma SameButRemoved(ref: string, before: map<string, string>)
    ensures SameBut(ref, before, before - {ref}) && ref !in before - {ref}
  {
  }

  lemma SameButPut(ref: string, before: map<string, string>, content: string, after: map<string, string>)
    requires SameBut(ref, before[ref := content], after)
    ensures SameBut(ref, before, after)
  {
    forall other | other != ref
      ensures (other in before <==> other in after) && (other in before ==> before[other] == after[other])
    {
      assert other in before <==> other in before[ref := content];
    }
  }

  lemma PendingIncreasing(log: Log)
    requires Inv(log)
    ensures Increasing(PendingOf(log.commands))
  {
    assert Increasing(log.commands);
    PendingOfIncreasing(log.commands);
  }

  lemma ReachedNamed(naming: Naming, tenant: string, steps: seq<Step>)
    requires Injective(naming)
    ensures Named(Run(StartWith(naming, tenant), steps).log)
  {
    RunSafe(StartWith(naming, tenant), steps);
  }

  lemma {:induction false} PendingWithout(commands: seq<Command>, i: nat, settled: Command)
    requires i < |commands| && TerminalPrefix(commands) == i && Terminal(settled)
    ensures PendingOf(commands) != [] && PendingOf(commands)[0] == commands[i]
    ensures PendingOf(commands[i := settled]) == PendingOf(commands)[1..]
  {
    if i == 0 {
      assert commands[i := settled][1..] == commands[1..];
    } else {
      PendingWithout(commands[1..], i - 1, settled);
      assert commands[i := settled][1..] == commands[1..][i - 1 := settled];
    }
  }

  // Finalizing the first pending command leaves the others pending.
  lemma FinalizeFirst(log: Log, response: Receipt)
    requires Inv(log) && Named(log) && PendingOf(log.commands) != []
    ensures var head := PendingOf(log.commands)[0];
      var (r, later) := Finalize(log, head.draft.operationId, TerminalStatus(response), response);
      && r.Ok? && PendingOf(later.commands) == PendingOf(log.commands)[1..]
      && |later.commands| == |log.commands| && Named(later)
  {
    PendingFirst(log.commands);
    var i := TerminalPrefix(log.commands);
    FindUnique(log, i);
    PendingWithout(log.commands, i,
                   log.commands[i].(status := TerminalStatus(response), receipt := Some(response)));
  }

  lemma FoundAfterPrepare(log: Log, tenant: string, draft: Draft)
    requires Inv(log) && Prepare(log, tenant, draft).0.Ok?
    ensures var (r, later) := Prepare(log, tenant, draft);
      && Find(later.commands, draft.operationId).Some?
      && (!(r.value.reused && Terminal(r.value.command) && r.value.command.receipt.Some?) ==>
            Awaiting(later, draft.operationId))
  {
  }
}
