/** What one replay of the pending tail achieves while requests, other replays and crashes go on around it. */
module Replays {
  import opened Wrappers
  import opened JournalSpec
  import opened Runtime
  import opened Guarantees

  predicate Lives(steps: seq<Step>, pid: nat) {
    forall i | 0 <= i < |steps| :: steps[i] != Crash(pid)
  }

  // The world after a replay has been woken in a reached world and `more` has happened.
  function Since(tenant: string, steps: seq<Step>, pid: nat, more: seq<Step>): World {
    Run(After(Reached(tenant, steps), Wake(pid)), more)
  }

  lemma SinceReached(tenant: string, steps: seq<Step>, pid: nat, more: seq<Step>)
    ensures Since(tenant, steps, pid, more) == Reached(tenant, steps + [Wake(pid)] + more)
  {
    RunTwice(Start(tenant), steps + [Wake(pid)], more);
    assert (steps + [Wake(pid)])[..|steps|] == steps;
  }

  // What the container gets to see in one step, and in the steps of process `pid`.
  function Heard(before: seq<Message>, after: seq<Message>): seq<Message> {
    if |before| <= |after| then after[|before|..] else []
  }

  function Told(w: World, pid: nat, steps: seq<Step>): seq<Message> {
    if steps == [] then []
    else
      var (front, last) := (steps[..|steps| - 1], steps[|steps| - 1]);
      var before := Run(w, front);
      Told(w, pid, front)
      + if last.Advance? && last.pid == pid then Heard(before.container.seen, After(before, last).container.seen)
        else []
  }

  // What a replay has still to do.
  function Queue(w: World, pid: nat): seq<Command> {
    if pid in w.processes && w.processes[pid].Replay? then w.processes[pid].queue else []
  }

  predicate Halted(w: World, pid: nat) {
    pid in w.processes && w.processes[pid].Replay? && w.processes[pid].phase.Stuck?
  }

  // The journal's record of a command that was pending when the replay started.
  function RecordOf(log: Log, command: Command): Command {
    if 1 <= command.sequence <= |log.commands| then log.commands[command.sequence - 1] else command
  }

  // `message` replays `command` with the body it was prepared for.
  ghost predicate Repeats(tenant: string, command: Command, message: Message) {
    && message == ReplayMessage(tenant, command.draft, message.payload)
    && Digest(message.payload) == command.draft.bodyHash
  }

  /******* The progress of one replay *******/

  // A replay that started with `pending`: what it has done is a prefix of that list, all of it terminal, what it has
  // still to do is the rest, and it has told the container of that prefix, in order, and of at most one more.
  ghost predicate Progress(pending: seq<Command>, tenant: string, log: Log, queue: seq<Command>, replayed: seq<string>,
                           phase: Phase, told: seq<Message>) {
    var k := |replayed|;
    && k <= |pending| && queue == pending[k..] && replayed == OperationIds(pending)[..k]
    && (forall i | 0 <= i < k :: Terminal(RecordOf(log, pending[i])))
    && |told| == k + (if queue != [] && (phase.Heard? || phase.Recorded?) then 1 else 0)
    && (forall i | 0 <= i < |told| :: Repeats(tenant, pending[i], told[i]))
  }

  ghost predicate Tracks(start: Log, w: World, pid: nat, told: seq<Message>) {
    && Later(start, w.log) && pid in w.processes && w.processes[pid].Replay?
    && (forall command | command in PendingOf(start.commands) :: 1 <= command.sequence <= |start.commands|)
    && Progress(PendingOf(start.commands), w.tenant, w.log, w.processes[pid].queue, w.processes[pid].replayed,
                w.processes[pid].phase, told)
  }

  lemma ProgressLater(pending: seq<Command>, tenant: string, log: Log, later: Log, queue: seq<Command>,
                      replayed: seq<string>, phase: Phase, told: seq<Message>)
    requires Progress(pending, tenant, log, queue, replayed, phase, told) && Later(log, later)
    requires forall command | command in pending :: 1 <= command.sequence <= |log.commands|
    ensures Progress(pending, tenant, later, queue, replayed, phase, told)
  {
    forall i | 0 <= i < |replayed| ensures Terminal(RecordOf(later, pending[i])) {
      assert pending[i] in pending && Terminal(RecordOf(log, pending[i]));
    }
  }

  lemma TellsOne(pending: seq<Command>, tenant: string, log: Log, queue: seq<Command>, replayed: seq<string>,
                 payload: string, response: Receipt, told: seq<Message>)
    requires Progress(pending, tenant, log, queue, replayed, Loaded(payload), told) && queue != []
    requires Digest(payload) == queue[0].draft.bodyHash
    ensures Progress(pending, tenant, log, queue, replayed, Phase.Heard(response),
                     told + [ReplayMessage(tenant, queue[0].draft, payload)])
  {
    var later := told + [ReplayMessage(tenant, queue[0].draft, payload)];
    forall i | 0 <= i < |later| ensures Repeats(tenant, pending[i], later[i]) {
      if i < |told| {
        assert Repeats(tenant, pending[i], told[i]);
      } else {
        assert pending[i] == queue[0];
      }
    }
  }

  lemma FinishesOne(pending: seq<Command>, tenant: string, log: Log, queue: seq<Command>, replayed: seq<string>,
                    told: seq<Message>)
    requires Progress(pending, tenant, log, queue, replayed, Recorded, told) && queue != []
    requires Terminal(RecordOf(log, queue[0]))
    ensures Progress(pending, tenant, log, queue[1..], replayed + [queue[0].draft.operationId], Next, told)
  {
    var k := |replayed|;
    assert pending[k] == queue[0] && queue[1..] == pending[k + 1..];
    assert OperationIds(pending)[..k + 1] == OperationIds(pending)[..k] + [queue[0].draft.operationId];
  }

  // One step of the replay itself, from the world `w` to `v`.
  ghost predicate Advances(pending: seq<Command>, w: World, v: World, pid: nat, told: seq<Message>) {
    && pid in v.processes && v.processes[pid].Replay?
    && Progress(pending, w.tenant, v.log, v.processes[pid].queue, v.processes[pid].replayed, v.processes[pid].phase,
                told + Heard(w.container.seen, v.container.seen))
  }

  lemma ToldStep(pending: seq<Command>, w: World, pid: nat, queue: seq<Command>, replayed: seq<string>,
                 payload: string, told: seq<Message>, novel: Receipt)
    requires queue != [] && Digest(payload) == queue[0].draft.bodyHash
    requires Progress(pending, w.tenant, w.log, queue, replayed, Loaded(payload), told)
    ensures Advances(pending, w, AdvanceReplay(w, pid, queue, replayed, Loaded(payload), novel), pid, told)
  {
    var v := AdvanceReplay(w, pid, queue, replayed, Loaded(payload), novel);
    TellsOne(pending, w.tenant, w.log, queue, replayed, payload, v.processes[pid].phase.response, told);
    assert v.container.seen[|w.container.seen|..] == [ReplayMessage(w.tenant, queue[0].draft, payload)];
  }

  lemma FinalizedStep(pending: seq<Command>, w: World, pid: nat, queue: seq<Command>, replayed: seq<string>,
                      response: Receipt, told: seq<Message>, novel: Receipt)
    requires LogOk(w.naming, w.tenant, w.log, w.container.memo) && queue != []
    requires Find(w.log.commands, queue[0].draft.operationId).Some?
    requires Remembers(w.container.memo, queue[0].draft.operationId, response)
    requires forall command | command in pending :: 1 <= command.sequence <= |w.log.commands|
    requires Progress(pending, w.tenant, w.log, queue, replayed, Phase.Heard(response), told)
    ensures Advances(pending, w, AdvanceReplay(w, pid, queue, replayed, Phase.Heard(response), novel), pid, told)
  {
    var v := AdvanceReplay(w, pid, queue, replayed, Phase.Heard(response), novel);
    FinalizeSafe(w.naming, w.tenant, w.log, w.container.memo, queue[0].draft.operationId, response);
    ProgressLater(pending, w.tenant, w.log, v.log, queue, replayed, Phase.Heard(response), told);
    assert told + [] == told;
  }

  lemma OwnStep(start: Log, w: World, pid: nat, told: seq<Message>, novel: Receipt)
    requires Safe(w) && Tracks(start, w, pid, told)
    ensures Advances(PendingOf(start.commands), w, After(w, Advance(pid, novel)), pid, told)
  {
    var Replay(queue, replayed, phase) := w.processes[pid];
    var pending := PendingOf(start.commands);
    assert After(w, Advance(pid, novel)) == AdvanceReplay(w, pid, queue, replayed, phase, novel);
    assert told + [] == told;
    if queue != [] {
      var k := HeadOfQueue(w, pid, queue, replayed, phase);
      match phase
      case Next =>
      case Loaded(payload) => ToldStep(pending, w, pid, queue, replayed, payload, told, novel);
      case Heard(response) => FinalizedStep(pending, w, pid, queue, replayed, response, told, novel);
      case Recorded => FinishesOne(pending, w.tenant, w.log, queue, replayed, told);
      case Stuck =>
    }
  }

  lemma StepTracks(start: Log, w: World, pid: nat, told: seq<Message>, step: Step)
    requires Safe(w) && Tracks(start, w, pid, told) && step != Crash(pid)
    ensures var v := After(w, step);
      Tracks(start, v, pid,
             told + if step.Advance? && step.pid == pid then Heard(w.container.seen, v.container.seen) else [])
  {
    var v := After(w, step);
    StepSafe(w, step);
    LaterTransitive(start, w.log, v.log);
    StepKeepsNames(w, step);
    if step.Advance? && step.pid == pid {
      OwnStep(start, w, pid, told, step.novel);
    } else {
      var Replay(queue, replayed, phase) := w.processes[pid];
      OtherStep(w, pid, step);
      ProgressLater(PendingOf(start.commands), w.tenant, w.log, v.log, queue, replayed, phase, told);
      assert told + [] == told;
    }
  }

  lemma OtherStep(w: World, pid: nat, step: Step)
    requires pid in w.processes && step != Crash(pid) && !(step.Advance? && step.pid == pid)
    ensures pid in After(w, step).processes && After(w, step).processes[pid] == w.processes[pid]
  {
    match step
    case Arrive(p, _) =>
    case Wake(p) =>
    case Crash(p) =>
    case Advance(p, novel) =>
      if p in w.processes {
        match w.processes[p]
        case Serve(request, stage) => ServeOnly(w, p, request, stage, novel, pid);
        case Replay(queue, replayed, phase) =>
      }
  }

  lemma ServeOnly(w: World, p: nat, request: Request, stage: Stage, novel: Receipt, pid: nat)
    requires p in w.processes && pid in w.processes && pid != p
    ensures var v := AdvanceServe(w, p, request, stage, novel);
      pid in v.processes && v.processes[pid] == w.processes[pid]
  {
  }

  lemma WakeTracks(w: World, pid: nat)
    requires Safe(w) && pid !in w.processes
    ensures Safe(After(w, Wake(pid))) && Tracks(w.log, After(w, Wake(pid)), pid, [])
  {
    StepSafe(w, Wake(pid));
    PendingOfIncreasing(w.log.commands);
    forall command | command in PendingOf(w.log.commands) ensures 1 <= command.sequence <= |w.log.commands| {
      var i :| 0 <= i < |w.log.commands| && w.log.commands[i] == command;
    }
  }

  lemma {:induction false} RunTracks(w: World, pid: nat, steps: seq<Step>)
    requires Safe(w) && pid !in w.processes && Lives(steps, pid)
    ensures var awake := After(w, Wake(pid));
      Safe(Run(awake, steps)) && Tracks(w.log, Run(awake, steps), pid, Told(awake, pid, steps))
  {
    WakeTracks(w, pid);
    if steps != [] {
      var (front, last) := (steps[..|steps| - 1], steps[|steps| - 1]);
      var awake := After(w, Wake(pid));
      RunTracks(w, pid, front);
      StepSafe(Run(awake, front), last);
      StepTracks(w.log, Run(awake, front), pid, Told(awake, pid, front), last);
    }
  }

  /******* What it comes to *******/

  // One replay tells the container of the commands that were pending when it started, each once, in strictly
  // increasing sequence and without a gap, whatever else goes on.
  lemma ReplayInOrder(tenant: string, steps: seq<Step>, pid: nat, more: seq<Step>)
    requires pid !in Reached(tenant, steps).processes && Lives(more, pid)
    ensures var pending := PendingOf(Reached(tenant, steps).log.commands);
      var told := Told(After(Reached(tenant, steps), Wake(pid)), pid, more);
      && Increasing(pending) && |told| <= |pending|
      && (forall i | 0 <= i < |told| :: Repeats(tenant, pending[i], told[i]))
      && pid in Since(tenant, steps, pid, more).processes && Since(tenant, steps, pid, more).processes[pid].Replay?
      && Since(tenant, steps, pid, more).processes[pid].replayed <= OperationIds(pending)
  {
    var w := Reached(tenant, steps);
    ReachedSafe(tenant, steps);
    PendingOfIncreasing(w.log.commands);
    RunTracks(w, pid, more);
    SinceReached(tenant, steps, pid, more);
    ReachedSafe(tenant, steps + [Wake(pid)] + more);
  }

  lemma {:induction false} PrefixAtLeast(commands: seq<Command>, n: nat)
    requires n <= |commands| && forall i | 0 <= i < n :: Terminal(commands[i])
    ensures TerminalPrefix(commands) >= n
  {
    if n != 0 {
      PrefixAtLeast(commands[1..], n - 1);
    }
  }

  lemma MarkAround(log: Log, k: nat)
    requires k < |log.commands| && log.mark == TerminalPrefix(log.commands)
    requires forall i | 0 <= i < k :: Terminal(log.commands[i])
    ensures log.mark >= k && (log.mark == k <==> !Terminal(log.commands[k]))
  {
    PrefixAtLeast(log.commands, k);
    if Terminal(log.commands[k]) {
      PrefixAtLeast(log.commands, k + 1);
    }
  }

  lemma AheadOf(pending: seq<Command>, k: nat, n: nat, j: nat)
    requires Increasing(pending) && k <= |pending| && (k < |pending| ==> n < pending[k].sequence)
    requires j < |pending| && pending[j].sequence <= n
    ensures j < k
  {
  }

  // Everything before the command a replay is at is terminal.
  lemma EarlierTerminal(start: Log, w: World, pid: nat, told: seq<Message>, n: nat)
    requires Inv(start) && Tracks(start, w, pid, told) && n <= |start.commands|
    requires w.processes[pid].queue != [] ==> n < w.processes[pid].queue[0].sequence
    ensures forall i | 0 <= i < n :: Terminal(w.log.commands[i])
  {
    var (pending, k) := (PendingOf(start.commands), |w.processes[pid].replayed|);
    PendingOfIncreasing(start.commands);
    forall i | 0 <= i < n ensures Terminal(w.log.commands[i]) {
      if !Terminal(start.commands[i]) {
        assert start.commands[i] in pending;
        var j :| 0 <= j < |pending| && pending[j] == start.commands[i];
        AheadOf(pending, k, n, j);
        DealtWith(start, w, pid, told, j, i);
      }
    }
  }

  lemma DealtWith(start: Log, w: World, pid: nat, told: seq<Message>, j: nat, i: nat)
    requires Inv(start) && Tracks(start, w, pid, told)
    requires j < |w.processes[pid].replayed| && j < |PendingOf(start.commands)| && i < |start.commands|
    requires PendingOf(start.commands)[j] == start.commands[i]
    ensures Terminal(w.log.commands[i])
  {
    assert Terminal(RecordOf(w.log, PendingOf(start.commands)[j]));
  }

  // A replay that comes to its end has left nothing pending that it was woken for, whoever else was at work: the mark
  // is past all of it, and if nothing was prepared meanwhile, nothing is pending and the mark is at the last sequence.
  lemma ReplayCompletes(tenant: string, steps: seq<Step>, pid: nat, more: seq<Step>)
    requires pid !in Reached(tenant, steps).processes && Lives(more, pid)
    requires Queue(Since(tenant, steps, pid, more), pid) == []
    ensures var (start, log) := (Reached(tenant, steps).log, Since(tenant, steps, pid, more).log);
      && |start.commands| <= |log.commands|
      && (forall i | 0 <= i < |start.commands| :: Terminal(log.commands[i]))
      && log.mark >= |start.commands|
      && (|log.commands| == |start.commands| ==> PendingOf(log.commands) == [] && log.mark == |log.commands|)
  {
    var (w, v) := (Reached(tenant, steps), Since(tenant, steps, pid, more));
    ReachedSafe(tenant, steps);
    RunTracks(w, pid, more);
    EarlierTerminal(w.log, v, pid, Told(After(w, Wake(pid)), pid, more), |w.log.commands|);
    PrefixAtLeast(v.log.commands, |w.log.commands|);
    SinceReached(tenant, steps, pid, more);
    MarkIsExact(tenant, steps + [Wake(pid)] + more);
  }

  // A replay that is at some command: everything before it is terminal, and the mark is just before it if and only
  // if the command is still pending.
  lemma ReplayPosition(tenant: string, steps: seq<Step>, pid: nat, more: seq<Step>)
    requires pid !in Reached(tenant, steps).processes && Lives(more, pid)
    requires Queue(Since(tenant, steps, pid, more), pid) != []
    ensures var v := Since(tenant, steps, pid, more);
      var head := Queue(v, pid)[0];
      && 1 <= head.sequence <= |v.log.commands| && v.log.commands[head.sequence - 1].draft == head.draft
      && (forall i | 0 <= i < head.sequence - 1 :: Terminal(v.log.commands[i]))
      && v.log.mark >= head.sequence - 1
      && (v.log.mark == head.sequence - 1 <==> !Terminal(v.log.commands[head.sequence - 1]))
  {
    var (w, v) := (Reached(tenant, steps), Since(tenant, steps, pid, more));
    ReachedSafe(tenant, steps);
    RunTracks(w, pid, more);
    var k := HeadOfQueue(v, pid, Queue(v, pid), v.processes[pid].replayed, v.processes[pid].phase);
    assert Queue(v, pid)[0] in PendingOf(w.log.commands);
    EarlierTerminal(w.log, v, pid, Told(After(w, Wake(pid)), pid, more), k);
    SinceReached(tenant, steps, pid, more);
    MarkIsExact(tenant, steps + [Wake(pid)] + more);
    MarkAround(v.log, k);
  }

  // If nothing was prepared meanwhile, what is pending is exactly what the replay has still to do, if and only if no
  // other process has finalized any of that.
  lemma ReplayRest(tenant: string, steps: seq<Step>, pid: nat, more: seq<Step>)
    requires pid !in Reached(tenant, steps).processes && Lives(more, pid)
    requires |Since(tenant, steps, pid, more).log.commands| == |Reached(tenant, steps).log.commands|
    ensures var v := Since(tenant, steps, pid, more);
      PendingOf(v.log.commands) == Queue(v, pid) <==>
      forall command | command in Queue(v, pid) :: !Terminal(RecordOf(v.log, command))
  {
    var (w, v) := (Reached(tenant, steps), Since(tenant, steps, pid, more));
    ReachedSafe(tenant, steps);
    RunTracks(w, pid, more);
    PendingOfIncreasing(w.log.commands);
    forall i | 0 <= i < |v.log.commands| && !Terminal(v.log.commands[i])
      ensures v.log.commands[i] == w.log.commands[i] && !Terminal(w.log.commands[i])
    {
      SameWhilePending(w.log, v.log, i);
    }
    RestExactly(w.log.commands, v.log, PendingOf(w.log.commands), Queue(v, pid), |v.processes[pid].replayed|);
  }

  lemma SameWhilePending(start: Log, log: Log, i: nat)
    requires Inv(start) && Inv(log) && Later(start, log) && i < |start.commands| && !Terminal(log.commands[i])
    ensures log.commands[i] == start.commands[i] && !Terminal(start.commands[i])
  {
  }

  // `queue` is `pending` but for its first `k` commands, which are terminal by now.
  ghost predicate Rest(start: seq<Command>, log: Log, pending: seq<Command>, queue: seq<Command>, k: nat) {
    && Inv(log) && |log.commands| == |start| && k <= |pending| && queue == pending[k..] && Increasing(pending)
    && (forall i | 0 <= i < |start| :: start[i].sequence == i + 1)
    && (forall command :: command in pending <==> command in start && !Terminal(command))
    && (forall i | 0 <= i < k :: Terminal(RecordOf(log, pending[i])))
    && (forall i | 0 <= i < |start| && !Terminal(log.commands[i]) ::
          log.commands[i] == start[i] && !Terminal(start[i]))
  }

  lemma RestExactly(start: seq<Command>, log: Log, pending: seq<Command>, queue: seq<Command>, k: nat)
    requires Rest(start, log, pending, queue, k)
    ensures PendingOf(log.commands) == queue <==> forall command | command in queue :: !Terminal(RecordOf(log, command))
  {
    PendingRecords(log);
    if forall command | command in queue :: !Terminal(RecordOf(log, command)) {
      RestIsPending(start, log, pending, queue, k);
    }
  }

  lemma PendingRecords(log: Log)
    requires Inv(log)
    ensures Increasing(PendingOf(log.commands))
    ensures forall command | command in PendingOf(log.commands) :: !Terminal(RecordOf(log, command))
    ensures forall command :: command in PendingOf(log.commands) <==> command in log.commands && !Terminal(command)
  {
    PendingOfIncreasing(log.commands);
    forall command | command in PendingOf(log.commands) ensures !Terminal(RecordOf(log, command)) {
      var i :| 0 <= i < |log.commands| && log.commands[i] == command;
    }
  }

  lemma RestIsPending(start: seq<Command>, log: Log, pending: seq<Command>, queue: seq<Command>, k: nat)
    requires Rest(start, log, pending, queue, k)
    requires forall command | command in queue :: !Terminal(RecordOf(log, command))
    ensures PendingOf(log.commands) == queue
  {
    PendingRecords(log);
    forall command ensures command in PendingOf(log.commands) <==> command in queue {
      RestMember(start, log, pending, queue, k, command);
    }
    IncreasingUnique(PendingOf(log.commands), queue);
  }

  lemma RestMember(start: seq<Command>, log: Log, pending: seq<Command>, queue: seq<Command>, k: nat, command: Command)
    requires Rest(start, log, pending, queue, k)
    requires forall command | command in queue :: !Terminal(RecordOf(log, command))
    ensures (command in log.commands && !Terminal(command)) <==> command in queue
  {
    if command in log.commands && !Terminal(command) {
      PendingIsRest(start, log, pending, queue, k, command);
    }
    if command in queue {
      QueuedIsPending(start, log, pending, queue, k, command);
    }
  }

  lemma PendingIsRest(start: seq<Command>, log: Log, pending: seq<Command>, queue: seq<Command>, k: nat,
                      command: Command)
    requires Rest(start, log, pending, queue, k) && command in log.commands && !Terminal(command)
    ensures command in queue
  {
    var i :| 0 <= i < |log.commands| && log.commands[i] == command;
    assert command in pending;
    var j :| 0 <= j < |pending| && pending[j] == command;
    assert RecordOf(log, pending[j]) == command;
    assert queue[j - k] == command;
  }

  lemma QueuedIsPending(start: seq<Command>, log: Log, pending: seq<Command>, queue: seq<Command>, k: nat,
                        command: Command)
    requires Rest(start, log, pending, queue, k) && command in queue && !Terminal(RecordOf(log, command))
    ensures command in log.commands && !Terminal(command)
  {
    assert command in pending;
    var i :| 0 <= i < |start| && start[i] == command;
    assert RecordOf(log, command) == log.commands[i];
  }

  /******* Missing bodies *******/

  // The body of a binary command has been uploaded before anything is done with it, and only uploaded bodies are in
  // the store.
  ghost predicate Uploaded(naming: Naming, uploaded: set<string>, process: Process) {
    match process
    case Serve(request, stage) =>
      request.binary && (stage.Staged? || stage.Fetched? || stage.Answered? || stage.Settled?) ==>
        naming(request.tenantId, request.operationId) in uploaded
    case Replay(queue, _, phase) =>
      queue != [] && (phase.Loaded? || phase.Heard? || phase.Recorded?) && queue[0].draft.bodyRef.Some? ==>
        queue[0].draft.bodyRef.value in uploaded
  }

  ghost predicate SettledUploaded(log: Log, uploaded: set<string>) {
    forall i | 0 <= i < |log.commands| && Terminal(log.commands[i]) && log.commands[i].draft.bodyRef.Some? ::
      log.commands[i].draft.bodyRef.value in uploaded
  }

  ghost predicate AllUploaded(w: World) {
    && (forall ref | ref in w.objects :: ref in w.uploaded)
    && SettledUploaded(w.log, w.uploaded)
    && (forall pid | pid in w.processes :: Uploaded(w.naming, w.uploaded, w.processes[pid]))
  }

  lemma UploadedLater(w: World, v: World, pid: nat)
    requires AllUploaded(w) && v.naming == w.naming && w.uploaded <= v.uploaded
    requires pid in v.processes && v.processes == w.processes[pid := v.processes[pid]]
    requires Uploaded(w.naming, v.uploaded, v.processes[pid])
    requires forall ref | ref in v.objects :: ref in v.uploaded
    requires SettledUploaded(v.log, v.uploaded)
    ensures AllUploaded(v)
  {
    forall p | p in v.processes ensures Uploaded(v.naming, v.uploaded, v.processes[p]) {
      assert p != pid ==> v.processes[p] == w.processes[p];
    }
  }

  lemma FinalizeUploaded(log: Log, operationId: string, status: Status, receipt: Receipt, uploaded: set<string>)
    requires SettledUploaded(log, uploaded) && Find(log.commands, operationId).Some?
    requires var draft := log.commands[Find(log.commands, operationId).value].draft;
      draft.bodyRef.Some? ==> draft.bodyRef.value in uploaded
    ensures SettledUploaded(Finalize(log, operationId, status, receipt).1, uploaded)
  {
  }

  lemma PrepareUploaded(log: Log, tenant: string, draft: Draft, uploaded: set<string>)
    requires SettledUploaded(log, uploaded)
    ensures SettledUploaded(Prepare(log, tenant, draft).1, uploaded)
  {
  }

  lemma ArrivedUploaded(w: World, pid: nat, request: Request, novel: Receipt)
    requires AllUploaded(w) && pid in w.processes && w.processes[pid] == Serve(request, Arrived)
    ensures AllUploaded(AdvanceServe(w, pid, request, Arrived, novel))
  {
    PrepareUploaded(w.log, request.tenantId, DraftOf(w.naming, request), w.uploaded);
    UploadedLater(w, AdvanceServe(w, pid, request, Arrived, novel), pid);
  }

  lemma AnsweredUploaded(w: World, pid: nat, request: Request, response: Receipt, novel: Receipt)
    requires Safe(w) && AllUploaded(w) && pid in w.processes && w.processes[pid] == Serve(request, Answered(response))
    ensures AllUploaded(AdvanceServe(w, pid, request, Answered(response), novel))
  {
    assert ProcessOk(w.naming, w.tenant, w.log, w.container.memo, w.processes[pid]);
    assert Uploaded(w.naming, w.uploaded, w.processes[pid]);
    var found := Find(w.log.commands, request.operationId);
    assert SameFingerprint(w.log.commands[found.value].draft, DraftOf(w.naming, request));
    FinalizeUploaded(w.log, request.operationId, TerminalStatus(response), response, w.uploaded);
    UploadedLater(w, AdvanceServe(w, pid, request, Answered(response), novel), pid);
  }

  lemma ServeUploaded(w: World, pid: nat, request: Request, stage: Stage, novel: Receipt)
    requires Safe(w) && AllUploaded(w) && pid in w.processes && w.processes[pid] == Serve(request, stage)
    ensures AllUploaded(AdvanceServe(w, pid, request, stage, novel))
  {
    match stage
    case Arrived => ArrivedUploaded(w, pid, request, novel);
    case Answered(response) => AnsweredUploaded(w, pid, request, response, novel);
    case Replied(_) =>
    case Ended =>
    case _ =>
      assert Uploaded(w.naming, w.uploaded, w.processes[pid]);
      assert ProcessOk(w.naming, w.tenant, w.log, w.container.memo, w.processes[pid]);
      UploadedLater(w, AdvanceServe(w, pid, request, stage, novel), pid);
  }

  lemma ReplayUploaded(w: World, pid: nat, queue: seq<Command>, replayed: seq<string>, phase: Phase, novel: Receipt)
    requires Safe(w) && AllUploaded(w) && pid in w.processes && w.processes[pid] == Replay(queue, replayed, phase)
    ensures AllUploaded(AdvanceReplay(w, pid, queue, replayed, phase, novel))
  {
    var v := AdvanceReplay(w, pid, queue, replayed, phase, novel);
    assert Uploaded(w.naming, w.uploaded, w.processes[pid]);
    if queue != [] && !phase.Stuck? {
      var k := HeadOfQueue(w, pid, queue, replayed, phase);
      if phase.Heard? {
        FinalizeUploaded(w.log, queue[0].draft.operationId, TerminalStatus(phase.response), phase.response, w.uploaded);
      }
      UploadedLater(w, v, pid);
    }
  }

  lemma StepUploaded(w: World, step: Step)
    requires Safe(w) && AllUploaded(w)
    ensures AllUploaded(After(w, step))
  {
    match step
    case Arrive(pid, request) =>
      if pid !in w.processes && request.tenantId == w.tenant {
        UploadedLater(w, After(w, step), pid);
      }
    case Wake(pid) =>
      if pid !in w.processes {
        UploadedLater(w, After(w, step), pid);
      }
    case Advance(pid, novel) =>
      if pid in w.processes {
        match w.processes[pid]
        case Serve(request, stage) => ServeUploaded(w, pid, request, stage, novel);
        case Replay(queue, replayed, phase) => ReplayUploaded(w, pid, queue, replayed, phase, novel);
      }
    case Crash(pid) =>
  }

  lemma {:induction false} ReachedUploaded(tenant: string, steps: seq<Step>)
    ensures AllUploaded(Reached(tenant, steps))
  {
    if steps != [] {
      var front := steps[..|steps| - 1];
      ReachedUploaded(tenant, front);
      ReachedSafe(tenant, front);
      StepUploaded(Reached(tenant, front), steps[|steps| - 1]);
    }
  }

  lemma ReadsBack(w: World, pid: nat, request: Request, novel: Receipt)
    requires pid in w.processes && w.processes[pid] == Serve(request, Staged)
    ensures var v := After(w, Advance(pid, novel));
      && pid in v.processes
      && (v.processes[pid] == Serve(request, Ended) <==> w.naming(request.tenantId, request.operationId) !in w.objects)
  {
    assert After(w, Advance(pid, novel)) == AdvanceServe(w, pid, request, Staged, novel);
  }

  // A request finds its own upload gone only if another process has brought its operation to an end meanwhile: a
  // retry will get the receipt.
  lemma UploadGoneExactly(tenant: string, steps: seq<Step>, pid: nat, request: Request, novel: Receipt)
    requires var w := Reached(tenant, steps);
      pid in w.processes && w.processes[pid] == Serve(request, Staged)
    ensures var w := Reached(tenant, steps);
      var (found, ref) := (Find(w.log.commands, request.operationId), w.naming(request.tenantId, request.operationId));
      && found.Some?
      && (After(w, Advance(pid, novel)).processes[pid] == Serve(request, Ended) <==> ref !in w.objects)
      && (ref !in w.objects ==>
            Terminal(w.log.commands[found.value]) && w.log.commands[found.value].receipt.Some?)
  {
    var w := Reached(tenant, steps);
    ReachedSafe(tenant, steps);
    ReachedUploaded(tenant, steps);
    assert ProcessOk(w.naming, w.tenant, w.log, w.container.memo, w.processes[pid]);
    assert Uploaded(w.naming, w.uploaded, w.processes[pid]);
    var i := Find(w.log.commands, request.operationId).value;
    assert SameFingerprint(w.log.commands[i].draft, DraftOf(w.naming, request));
    if !Terminal(w.log.commands[i]) {
      StagedBodyExists(tenant, steps, i);
    }
    ReadsBack(w, pid, request, novel);
  }

  // The step in which a replay stops.
  lemma StopStep(w: World, pid: nat, queue: seq<Command>, replayed: seq<string>, phase: Phase, novel: Receipt)
    requires pid in w.processes && w.processes[pid] == Replay(queue, replayed, phase) && !phase.Stuck?
    requires queue != [] ==> Find(w.log.commands, queue[0].draft.operationId).Some?
    ensures var v := After(w, Advance(pid, novel));
      && pid in v.processes && v.processes[pid].Replay?
      && (v.processes[pid].phase.Stuck? <==>
            phase.Next? && queue != [] && queue[0].draft.bodyRef.Some? && queue[0].draft.bodyRef.value !in w.objects)
  {
    assert After(w, Advance(pid, novel)) == AdvanceReplay(w, pid, queue, replayed, phase, novel);
  }

  // A replay stops for good at a binary command whose body was never uploaded, or that another process has finalized
  // and cleaned up since: in no other case and at no other point.
  lemma StuckExactly(tenant: string, steps: seq<Step>, pid: nat, queue: seq<Command>, replayed: seq<string>,
                     phase: Phase, novel: Receipt)
    requires var w := Reached(tenant, steps);
      pid in w.processes && w.processes[pid] == Replay(queue, replayed, phase) && !phase.Stuck?
    ensures var (w, v) := (Reached(tenant, steps), After(Reached(tenant, steps), Advance(pid, novel)));
      && pid in v.processes && v.processes[pid].Replay?
      && (v.processes[pid].phase.Stuck? <==>
            && phase.Next? && queue != [] && queue[0].draft.bodyRef.Some?
            && var ref := queue[0].draft.bodyRef.value;
               ref !in w.uploaded || (Terminal(RecordOf(w.log, queue[0])) && ref !in w.objects))
      && (v.processes[pid].phase.Stuck? ==>
            (queue[0].draft.bodyRef.value !in w.uploaded <==> !Terminal(RecordOf(w.log, queue[0]))))
  {
    var w := Reached(tenant, steps);
    ReachedSafe(tenant, steps);
    ReachedUploaded(tenant, steps);
    if queue != [] {
      var k := HeadOfQueue(w, pid, queue, replayed, phase);
      if queue[0].draft.bodyRef.Some? && queue[0].draft.bodyRef.value in w.uploaded && !Terminal(w.log.commands[k]) {
        StagedBodyExists(tenant, steps, k);
      }
    }
    StopStep(w, pid, queue, replayed, phase, novel);
  }

  // A replay that stops there has finalized everything before it; the mark is just before the command it stopped at
  // if and only if the body of that command was never uploaded.
  lemma StoppedExactly(tenant: string, steps: seq<Step>, pid: nat, more: seq<Step>, novel: Receipt)
    requires pid !in Reached(tenant, steps).processes && Lives(more, pid)
    requires var w := Since(tenant, steps, pid, more);
      Queue(w, pid) != [] && !w.processes[pid].phase.Stuck? && Halted(After(w, Advance(pid, novel)), pid)
    ensures var w := Since(tenant, steps, pid, more);
      var head := Queue(w, pid)[0];
      && (forall i | 0 <= i < head.sequence - 1 :: i < |w.log.commands| && Terminal(w.log.commands[i]))
      && head.draft.bodyRef.Some?
      && (w.log.mark == head.sequence - 1 <==> head.draft.bodyRef.value !in w.uploaded)
      && (head.draft.bodyRef.value in w.uploaded ==> w.log.mark >= head.sequence)
  {
    var w := Since(tenant, steps, pid, more);
    ReplayPosition(tenant, steps, pid, more);
    SinceReached(tenant, steps, pid, more);
    StuckExactly(tenant, steps + [Wake(pid)] + more, pid, Queue(w, pid), w.processes[pid].replayed,
                 w.processes[pid].phase, novel);
  }

  /******* How long it takes *******/

  // How many of the steps are the replay's own.
  function Own(steps: seq<Step>, pid: nat): nat {
    if steps == [] then 0
    else
      var last := steps[|steps| - 1];
      Own(steps[..|steps| - 1], pid) + if last.Advance? && last.pid == pid then 1 else 0
  }

  function StepsInto(phase: Phase): nat {
    match phase
    case Next => 0
    case Loaded(_) => 1
    case Heard(_) => 2
    case Recorded => 3
    case Stuck => 0
  }

  // A replay woken with `n` commands has taken `own` steps, four for each command it has dealt with.
  ghost predicate Paced(n: nat, w: World, pid: nat, own: nat) {
    && pid in w.processes && w.processes[pid].Replay?
    && (Halted(w, pid)
        || (|Queue(w, pid)| <= n
            && if Queue(w, pid) == [] then own >= 4 * n
               else own == 4 * (n - |Queue(w, pid)|) + StepsInto(w.processes[pid].phase)))
  }

  // One step of a replay that has something to do.
  lemma OwnMoves(w: World, pid: nat, queue: seq<Command>, replayed: seq<string>, phase: Phase, novel: Receipt)
    requires pid in w.processes && w.processes[pid] == Replay(queue, replayed, phase) && queue != [] && !phase.Stuck?
    requires Find(w.log.commands, queue[0].draft.operationId).Some?
    ensures var v := After(w, Advance(pid, novel));
      && pid in v.processes && v.processes[pid].Replay?
      && (Halted(v, pid)
          || if phase.Recorded? then Queue(v, pid) == queue[1..] && v.processes[pid].phase == Next
             else Queue(v, pid) == queue && StepsInto(v.processes[pid].phase) == StepsInto(phase) + 1)
  {
    assert After(w, Advance(pid, novel)) == AdvanceReplay(w, pid, queue, replayed, phase, novel);
  }

  lemma OwnPaced(n: nat, w: World, pid: nat, own: nat, novel: Receipt)
    requires Safe(w) && Paced(n, w, pid, own)
    ensures Paced(n, After(w, Advance(pid, novel)), pid, own + 1)
  {
    var Replay(queue, replayed, phase) := w.processes[pid];
    if queue == [] || phase.Stuck? {
      assert After(w, Advance(pid, novel)) == w;
    } else {
      var k := HeadOfQueue(w, pid, queue, replayed, phase);
      OwnMoves(w, pid, queue, replayed, phase, novel);
    }
  }

  lemma {:induction false} RunPaced(w: World, pid: nat, steps: seq<Step>)
    requires Safe(w) && pid !in w.processes && Lives(steps, pid)
    ensures Paced(|PendingOf(w.log.commands)|, Run(After(w, Wake(pid)), steps), pid, Own(steps, pid))
  {
    if steps != [] {
      var (front, last) := (steps[..|steps| - 1], steps[|steps| - 1]);
      var before := Run(After(w, Wake(pid)), front);
      RunTracks(w, pid, front);
      RunPaced(w, pid, front);
      if last.Advance? && last.pid == pid {
        OwnPaced(|PendingOf(w.log.commands)|, before, pid, Own(front, pid), last.novel);
      } else {
        OtherStep(before, pid, last);
      }
    }
  }

  // Unless it stops, a replay has dealt with one command after every four steps of its own, whatever runs beside it; so
  // it has come to its end after four steps for each command that was pending when it started.
  lemma ReplayEnds(tenant: string, steps: seq<Step>, pid: nat, more: seq<Step>)
    requires pid !in Reached(tenant, steps).processes && Lives(more, pid)
    ensures var (n, v) := (|PendingOf(Reached(tenant, steps).log.commands)|, Since(tenant, steps, pid, more));
      && (!Halted(v, pid) ==> |Queue(v, pid)| == if Own(more, pid) < 4 * n then n - Own(more, pid) / 4 else 0)
      && (Own(more, pid) >= 4 * n ==> Queue(v, pid) == [] || Halted(v, pid))
  {
    ReachedSafe(tenant, steps);
    RunPaced(Reached(tenant, steps), pid, more);
  }

  /******* A stop that leaves work behind *******/

  lemma RunMore(w: World, steps: seq<Step>, step: Step)
    ensures Run(w, steps + [step]) == After(Run(w, steps), step)
  {
    assert (steps + [step])[..|steps|] == steps;
  }

  const NO_MESSAGES := Container(map[], [], [])

  function NewCommand(naming: Naming, request: Request, sequence: nat): Command {
    Command(DraftOf(naming, request), sequence, Pending, None)
  }

  // A binary and a text request of one tenant, journaled one after the other; the binary body is staged, and neither
  // has been forwarded.
  function BothJournaled(naming: Naming, b: Request, t: Request): World {
    var ref := naming(b.tenantId, b.operationId);
    World(naming, b.tenantId, Log([NewCommand(naming, b, 1), NewCommand(naming, t, 2)], 0), map[ref := b.body],
          NO_MESSAGES, map[1 := Serve(b, Staged), 2 := Serve(t, Ready)], [], {ref})
  }

  ghost predicate TwoRequests(b: Request, t: Request) {
    && Admit(b) == Journaled && Admit(t) == Journaled && b.binary && !t.binary
    && b.tenantId == t.tenantId && b.operationId != t.operationId && b.operationId != "" && t.operationId != ""
  }

  lemma StageBody(naming: Naming, b: Request, t: Request, novel: Receipt)
    requires TwoRequests(b, t)
    ensures var w := After(StartWith(naming, b.tenantId), Arrive(1, b));
      After(After(w, Advance(1, novel)), Advance(1, novel)) ==
      BothJournaled(naming, b, t)
        .(log := Log([NewCommand(naming, b, 1)], 0), processes := map[1 := Serve(b, Staged)])
  {
    var start := StartWith(naming, b.tenantId);
    var arrived := start.(processes := map[1 := Serve(b, Arrived)]);
    assert After(start, Arrive(1, b)) == arrived;
    var prepared := start.(log := Log([NewCommand(naming, b, 1)], 0), processes := map[1 := Serve(b, Ready)]);
    assert [] + [NewCommand(naming, b, 1)] == [NewCommand(naming, b, 1)];
    assert After(arrived, Advance(1, novel)) == prepared;
  }

  lemma PrepareText(naming: Naming, b: Request, t: Request, novel: Receipt)
    requires TwoRequests(b, t)
    ensures var w := BothJournaled(naming, b, t)
              .(log := Log([NewCommand(naming, b, 1)], 0), processes := map[1 := Serve(b, Staged)]);
      After(After(w, Arrive(2, t)), Advance(2, novel)) == BothJournaled(naming, b, t)
  {
    var w := BothJournaled(naming, b, t)
      .(log := Log([NewCommand(naming, b, 1)], 0), processes := map[1 := Serve(b, Staged)]);
    var arrived := w.(processes := map[1 := Serve(b, Staged), 2 := Serve(t, Arrived)]);
    assert After(w, Arrive(2, t)) == arrived;
    assert Find([NewCommand(naming, b, 1)], t.operationId) == None;
    var (x, y) := (NewCommand(naming, b, 1), NewCommand(naming, t, 2));
    assert [x] + [y] == [x, y];
  }

  // Two replays of the same two commands.
  function BothAwake(naming: Naming, b: Request, t: Request): World {
    var w := BothJournaled(naming, b, t);
    var replay := Replay(w.log.commands, [], Next);
    w.(processes := w.processes[3 := replay][4 := replay])
  }

  lemma WakeBoth(naming: Naming, b: Request, t: Request)
    ensures After(After(BothJournaled(naming, b, t), Wake(3)), Wake(4)) == BothAwake(naming, b, t)
  {
    var (x, y) := (NewCommand(naming, b, 1), NewCommand(naming, t, 2));
    var w := BothJournaled(naming, b, t);
    var replay := Replay([x, y], [], Next);
    assert [x, y][1..] == [y] && [y][1..] == [];
    assert PendingOf([]) == [] && PendingOf([y]) == [y] + PendingOf([]) == [y];
    assert PendingOf([x, y]) == [x] + PendingOf([x, y][1..]) == [x, y];
    assert After(w, Wake(3)) == w.(processes := w.processes[3 := replay]);
  }

  // One of them deals with the binary command.
  function OneDone(naming: Naming, b: Request, t: Request, novel: Receipt): World {
    var w := BothAwake(naming, b, t);
    var (x, y) := (NewCommand(naming, b, 1), NewCommand(naming, t, 2));
    var message := ReplayMessage(b.tenantId, x.draft, b.body);
    w.(log := Log([x.(status := TerminalStatus(novel), receipt := Some(novel)), y], 1), objects := map[],
       container := Container(map[b.operationId := novel], [message], [message]),
       processes := w.processes[3 := Replay([y], [b.operationId], Next)])
  }

  lemma ForwardFirst(naming: Naming, b: Request, t: Request, novel: Receipt)
    requires TwoRequests(b, t)
    ensures var w := BothAwake(naming, b, t);
      var message := ReplayMessage(b.tenantId, NewCommand(naming, b, 1).draft, b.body);
      After(After(w, Advance(3, novel)), Advance(3, novel)) ==
      w.(container := Container(map[b.operationId := novel], [message], [message]),
         processes := w.processes[3 := Replay(w.log.commands, [], Phase.Heard(novel))])
  {
    var w := BothAwake(naming, b, t);
    var loaded := w.(processes := w.processes[3 := Replay(w.log.commands, [], Loaded(b.body))]);
    var message := ReplayMessage(b.tenantId, NewCommand(naming, b, 1).draft, b.body);
    assert After(w, Advance(3, novel)) == loaded;
    assert [] + [message] == [message];
  }

  lemma FinalizeFirstOfTwo(naming: Naming, b: Request, t: Request, novel: Receipt)
    requires TwoRequests(b, t)
    ensures var (x, y) := (NewCommand(naming, b, 1), NewCommand(naming, t, 2));
      Finalize(Log([x, y], 0), b.operationId, TerminalStatus(novel), novel) ==
      (Ok(Finalized(x.(status := TerminalStatus(novel), receipt := Some(novel)), 1)),
       Log([x.(status := TerminalStatus(novel), receipt := Some(novel)), y], 1))
  {
    var (x, y) := (NewCommand(naming, b, 1), NewCommand(naming, t, 2));
    assert [x, y][..1] == [x];
    assert Find([x], b.operationId) == Some(0);
    assert Find([x, y], b.operationId) == Some(0);
    var settled := [x, y][0 := x.(status := TerminalStatus(novel), receipt := Some(novel))];
    assert settled == [x.(status := TerminalStatus(novel), receipt := Some(novel)), y];
    assert Scan(settled, 1) == 1 && Scan(settled, 0) == 1;
  }

  lemma FinishFirst(naming: Naming, b: Request, t: Request, novel: Receipt)
    requires TwoRequests(b, t)
    ensures var w := BothAwake(naming, b, t);
      var message := ReplayMessage(b.tenantId, NewCommand(naming, b, 1).draft, b.body);
      var heard := w.(container := Container(map[b.operationId := novel], [message], [message]),
                      processes := w.processes[3 := Replay(w.log.commands, [], Phase.Heard(novel))]);
      After(After(heard, Advance(3, novel)), Advance(3, novel)) == OneDone(naming, b, t, novel)
  {
    var w := BothAwake(naming, b, t);
    var message := ReplayMessage(b.tenantId, NewCommand(naming, b, 1).draft, b.body);
    var heard := w.(container := Container(map[b.operationId := novel], [message], [message]),
                    processes := w.processes[3 := Replay(w.log.commands, [], Phase.Heard(novel))]);
    var (x, y) := (NewCommand(naming, b, 1), NewCommand(naming, t, 2));
    FinalizeFirstOfTwo(naming, b, t, novel);
    var recorded := heard.(log := OneDone(naming, b, t, novel).log,
                           processes := w.processes[3 := Replay(w.log.commands, [], Recorded)]);
    assert After(heard, Advance(3, novel)) == recorded;
    assert [x, y][1..] == [y] && [] + [b.operationId] == [b.operationId];
    assert w.objects - {naming(b.tenantId, b.operationId)} == map[];
  }

  // For all such requests: a reachable world in which a replay has stopped at a command that is terminal already. The
  // mark is past it, and the next command is still pending although its turn would come.
  lemma StopsAtFinalizedCommand(b: Request, t: Request, novel: Receipt) returns (steps: seq<Step>)
    requires TwoRequests(b, t)
    ensures var w := Reached(b.tenantId, steps);
      && Halted(w, 4) && |Queue(w, 4)| == 2 && |w.log.commands| == 2
      && Terminal(RecordOf(w.log, Queue(w, 4)[0])) && !Terminal(RecordOf(w.log, Queue(w, 4)[1]))
      && w.log.mark == 1 && PendingOf(w.log.commands) != []
  {
    var w0 := StartWith(BodyRef, b.tenantId);
    var first := [Arrive(1, b), Advance(1, novel), Advance(1, novel)];
    var second := first + [Arrive(2, t), Advance(2, novel)] + [Wake(3), Wake(4)];
    var third := second + [Advance(3, novel), Advance(3, novel)] + [Advance(3, novel), Advance(3, novel)];
    RunThree(w0, Arrive(1, b), Advance(1, novel), Advance(1, novel));
    StageBody(BodyRef, b, t, novel);
    RunTwo(w0, first, Arrive(2, t), Advance(2, novel));
    PrepareText(BodyRef, b, t, novel);
    RunTwo(w0, first + [Arrive(2, t), Advance(2, novel)], Wake(3), Wake(4));
    WakeBoth(BodyRef, b, t);
    RunTwo(w0, second, Advance(3, novel), Advance(3, novel));
    ForwardFirst(BodyRef, b, t, novel);
    RunTwo(w0, second + [Advance(3, novel), Advance(3, novel)], Advance(3, novel), Advance(3, novel));
    FinishFirst(BodyRef, b, t, novel);
    RunMore(w0, third, Advance(4, novel));
    LeftBehind(BodyRef, b, t, novel);
    steps := third + [Advance(4, novel)];
  }

  lemma RunTwo(w: World, steps: seq<Step>, a: Step, b: Step)
    ensures Run(w, steps + [a, b]) == After(After(Run(w, steps), a), b)
  {
    RunMore(w, steps, a);
    RunMore(w, steps + [a], b);
    assert steps + [a] + [b] == steps + [a, b];
  }

  lemma RunThree(w: World, a: Step, b: Step, c: Step)
    ensures Run(w, [a, b, c]) == After(After(After(w, a), b), c)
  {
    RunMore(w, [], a);
    RunTwo(w, [a], b, c);
    assert [] + [a] == [a] && [a] + [b, c] == [a, b, c];
  }

  lemma LeftBehind(naming: Naming, b: Request, t: Request, novel: Receipt)
    requires TwoRequests(b, t)
    ensures var w := After(OneDone(naming, b, t, novel), Advance(4, novel));
      && Halted(w, 4) && |Queue(w, 4)| == 2 && |w.log.commands| == 2
      && Terminal(RecordOf(w.log, Queue(w, 4)[0])) && !Terminal(RecordOf(w.log, Queue(w, 4)[1]))
      && w.log.mark == 1 && PendingOf(w.log.commands) != []
  {
    var w := OneDone(naming, b, t, novel);
    assert w.processes[4] == Replay([NewCommand(naming, b, 1), NewCommand(naming, t, 2)], [], Next);
    PendingFirst(w.log.commands);
    assert TerminalPrefix(w.log.commands) <= 1;
  }
}
