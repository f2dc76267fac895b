/** The tenant runtime as a transition system. One step is what happens between two awaits of
    one process: a served request or a replay of the pending tail. Processes interleave
    freely and may die before any step; the journal, the object store and the container survive. */
module Runtime {
  import opened Wrappers
  import opened JournalSpec
  import Percent
  import Cut
  import Utf8

  const MAX_OPERATION_ID_LENGTH := 255
  const MAX_BODY_LENGTH := 1024 * 1024
  const MAX_BINARY_BODY_LENGTH := 512 * 1024 * 1024

  /******* Requests *******/

  // An absent header is the empty string. `protocolOnly` says that the body is a JSON object whose
  // method is one of the nine MCP calls that change nothing.
  datatype Request = Request(
    binary: bool, operationId: string, tenantId: string, verb: string, pathname: string, search: string,
    body: string, contentType: Option<string>, mcpSessionId: Option<string>, protocolOnly: bool, createdAtMs: int)

  datatype Decision = Direct | Refuse(status: int, code: string) | Journaled

  predicate HasControl(s: string) {
    s != [] && (s[0] < ' ' || s[0] == 127 as char || HasControl(s[1..]))
  }

  function Admit(request: Request): Decision {
    if request.binary then
      if request.operationId == "" || |request.operationId| > MAX_OPERATION_ID_LENGTH
      then Refuse(400, "operation_id_required")
      else if request.tenantId == "" then Refuse(400, "tenant_required")
      else if |request.body| > MAX_BINARY_BODY_LENGTH then Refuse(413, "body_too_large")
      else Journaled
    else if request.verb == "GET" || request.verb == "HEAD" then Direct
    else if |Utf8.Encode(request.body)| > MAX_BODY_LENGTH then Refuse(413, "body_too_large")
    else if request.pathname == "/mcp" && request.protocolOnly then Direct
    else if request.operationId == "" then Refuse(400, "operation_id_required")
    else if |request.operationId| > MAX_OPERATION_ID_LENGTH || HasControl(request.operationId)
    then Refuse(400, "invalid_operation_id")
    else if request.tenantId == "" then Refuse(400, "tenant_required")
    else Journaled
  }

  function BodyRef(tenantId: string, operationId: string): string {
    "pending/" + Percent.Encode(Percent.Component, tenantId) + "/"
    + Percent.Encode(Percent.Component, operationId) + ".bin"
  }

  lemma SandwichInjective(et: string, ea: string, eu: string, eb: string)
    requires '/' !in et && '/' !in eu
    requires "pending/" + et + "/" + ea + ".bin" == "pending/" + eu + "/" + eb + ".bin"
    ensures et == eu && ea == eb
  {
    var left, right := et + ['/'] + (ea + ".bin"), eu + ['/'] + (eb + ".bin");
    assert "pending/" + et + "/" + ea + ".bin" == "pending/" + left;
    assert "pending/" + eu + "/" + eb + ".bin" == "pending/" + right;
    assert left == ("pending/" + left)[8..] == ("pending/" + right)[8..] == right;
    Cut.JoinInjective(et, ea + ".bin", eu, eb + ".bin", '/');
    assert ea == (ea + ".bin")[..|ea + ".bin"| - 4] == (eb + ".bin")[..|eb + ".bin"| - 4] == eb;
  }

  lemma BodyRefInjective(t: string, a: string, u: string, b: string)
    ensures BodyRef(t, a) == BodyRef(u, b) ==> t == u && a == b
  {
    if BodyRef(t, a) == BodyRef(u, b) {
      var kept := Percent.Component;
      Percent.EncodePlain(kept, t);
      Percent.EncodePlain(kept, u);
      SandwichInjective(Percent.Encode(kept, t), Percent.Encode(kept, a),
                        Percent.Encode(kept, u), Percent.Encode(kept, b));
      Percent.EncodeInjective(kept, t, u);
      Percent.EncodeInjective(kept, a, b);
    }
  }

  // How staged objects are named after tenant and operation; `BodyRef` is the naming in use.
  type Naming = (string, string) -> string

  ghost predicate Injective(naming: Naming) {
    forall t, a, u, b :: naming(t, a) == naming(u, b) ==> t == u && a == b
  }

  lemma BodyRefNaming()
    ensures Injective(BodyRef)
  {
    forall t, a, u, b { BodyRefInjective(t, a, u, b); }
  }

  function DraftOf(naming: Naming, request: Request): Draft {
    if request.binary then
      Draft(request.operationId, request.tenantId, request.verb, request.pathname, "", Digest(request.body),
            Some(naming(request.tenantId, request.operationId)), request.contentType, request.mcpSessionId,
            request.createdAtMs)
    else
      Draft(request.operationId, request.tenantId, request.verb, request.pathname + request.search, request.body,
            Digest(request.body), None, None, request.mcpSessionId, request.createdAtMs)
  }

  /******* The container *******/

  datatype Message = Message(
    operationId: string, tenantId: string, verb: string, target: string, payload: string,
    contentType: Option<string>, mcpSessionId: Option<string>)

  // The container answers a repeated operation id with its first response and
  // does nothing more. `effects` are the messages that did something.
  datatype Container = Container(memo: map<string, Receipt>, effects: seq<Message>, seen: seq<Message>)

  function Deliver(container: Container, message: Message, novel: Receipt): (Receipt, Container) {
    if message.operationId in container.memo then
      (container.memo[message.operationId], container.(seen := container.seen + [message]))
    else
      (novel, Container(container.memo[message.operationId := novel],
                        container.effects + [message], container.seen + [message]))
  }

  function TerminalStatus(response: Receipt): Status {
    if 200 <= response.status < 300 then Applied else Rejected
  }

  function LiveMessage(request: Request, payload: string): Message {
    Message(request.operationId, request.tenantId, request.verb, request.pathname + request.search, payload,
            request.contentType, request.mcpSessionId)
  }

  function ReplayMessage(tenant: string, draft: Draft, payload: string): Message {
    Message(draft.operationId, tenant, draft.verb, draft.path, payload, draft.contentType, draft.mcpSessionId)
  }

  /******* Processes *******/

  datatype Stage =
    | Arrived
    | Ready                        // journaled
    | Staged                       // binary body uploaded
    | Fetched(payload: string)     // binary body read back
    | Answered(response: Receipt)  // the container has answered
    | Settled(receipt: Receipt)    // terminal in the journal
    | Replied(receipt: Receipt)
    | Ended                        // answered without a receipt

  datatype Phase = Next | Loaded(payload: string) | Heard(response: Receipt) | Recorded | Stuck

  datatype Process =
    | Serve(request: Request, stage: Stage)
    | Replay(queue: seq<Command>, replayed: seq<string>, phase: Phase)

  datatype Reply = Reply(draft: Draft, receipt: Receipt)

  datatype World = World(
    naming: Naming, tenant: string, log: Log, objects: map<string, string>, container: Container,
    processes: map<nat, Process>, replies: seq<Reply>, uploaded: set<string>)

  // `novel` is what the container answers in this step if it has not seen the operation before.
  datatype Step =
    | Arrive(pid: nat, request: Request)
    | Wake(pid: nat)
    | Advance(pid: nat, novel: Receipt)
    | Crash(pid: nat)

  function StartWith(naming: Naming, tenant: string): World {
    World(naming, tenant, EMPTY, map[], Container(map[], [], []), map[], [], {})
  }

  function Start(tenant: string): World { StartWith(BodyRef, tenant) }

  function Become(w: World, pid: nat, process: Process): World {
    w.(processes := w.processes[pid := process])
  }

  function Answer(w: World, pid: nat, request: Request, receipt: Receipt): World {
    Become(w, pid, Serve(request, Replied(receipt)))
      .(replies := w.replies + [Reply(DraftOf(w.naming, request), receipt)])
  }

  function AdvanceServe(w: World, pid: nat, request: Request, stage: Stage, novel: Receipt): World
  {
    var ref := w.naming(request.tenantId, request.operationId);
    match stage
    case Arrived =>
      if Admit(request) != Journaled then Become(w, pid, Serve(request, Ended))
      else
        var (prepared, log) := Prepare(w.log, request.tenantId, DraftOf(w.naming, request));
        (match prepared
         case Err(_) => Become(w, pid, Serve(request, Ended))
         case Ok(Prepared(command, reused)) =>
           if reused && Terminal(command) && command.receipt.Some?
           then Answer(w, pid, request, command.receipt.value)
           else Become(w.(log := log), pid, Serve(request, Ready)))
    case Ready =>
      if request.binary then
        Become(w.(objects := w.objects[ref := request.body], uploaded := w.uploaded + {ref}),
               pid, Serve(request, Staged))
      else Forward(w, pid, request, request.body, novel)
    case Staged =>
      Become(w, pid, Serve(request, if ref in w.objects then Fetched(w.objects[ref]) else Ended))
    case Fetched(payload) => Forward(w, pid, request, payload, novel)
    case Answered(response) =>
      var (finalized, log) := Finalize(w.log, request.operationId, TerminalStatus(response), response);
      (match finalized
       case Err(_) => Become(w, pid, Serve(request, Ended))
       case Ok(_) =>
         if request.binary then Become(w.(log := log), pid, Serve(request, Settled(response)))
         else Answer(w.(log := log), pid, request, response))
    case Settled(receipt) => Answer(w.(objects := w.objects - {ref}), pid, request, receipt)
    case Replied(_) => w
    case Ended => w
  }

  function Forward(w: World, pid: nat, request: Request, payload: string, novel: Receipt): World {
    var (response, container) := Deliver(w.container, LiveMessage(request, payload), novel);
    Become(w.(container := container), pid, Serve(request, Answered(response)))
  }

  function AdvanceReplay(w: World, pid: nat, queue: seq<Command>, replayed: seq<string>, phase: Phase,
                         novel: Receipt): World
  {
    if queue == [] then w
    else
      var draft := queue[0].draft;
      match phase
      case Next =>
        (match draft.bodyRef
         case None => Become(w, pid, Replay(queue, replayed, Loaded(draft.body)))
         case Some(ref) =>
           Become(w, pid, Replay(queue, replayed, if ref in w.objects then Loaded(w.objects[ref]) else Stuck)))
      case Loaded(payload) =>
        var (response, container) := Deliver(w.container, ReplayMessage(w.tenant, draft, payload), novel);
        Become(w.(container := container), pid, Replay(queue, replayed, Heard(response)))
      case Heard(response) =>
        var (finalized, log) := Finalize(w.log, draft.operationId, TerminalStatus(response), response);
        Become(w.(log := log), pid, Replay(queue, replayed, if finalized.Ok? then Recorded else Stuck))
      case Recorded =>
        var objects := if draft.bodyRef.Some? then w.objects - {draft.bodyRef.value} else w.objects;
        Become(w.(objects := objects), pid, Replay(queue[1..], replayed + [draft.operationId], Next))
      case Stuck => w
  }

  // A step that is not enabled changes nothing. A request of another tenant never
  // gets to this runtime.
  function After(w: World, step: Step): World
  {
    match step
    case Arrive(pid, request) =>
      if pid in w.processes || request.tenantId != w.tenant then w else Become(w, pid, Serve(request, Arrived))
    case Wake(pid) =>
      if pid in w.processes then w else Become(w, pid, Replay(PendingOf(w.log.commands), [], Next))
    case Advance(pid, novel) =>
      if pid !in w.processes then w
      else
        (match w.processes[pid]
         case Serve(request, stage) => AdvanceServe(w, pid, request, stage, novel)
         case Replay(queue, replayed, phase) => AdvanceReplay(w, pid, queue, replayed, phase, novel))
    case Crash(pid) => w.(processes := w.processes - {pid})
  }

  /******* What every reachable world keeps *******/

  // The record of a draft's operation id, and that it is the same request.
  ghost predicate Journals(log: Log, draft: Draft) {
    var found := Find(log.commands, draft.operationId);
    found.Some? && SameFingerprint(log.commands[found.value].draft, draft)
  }

  ghost predicate TerminalWith(log: Log, operationId: string, receipt: Receipt) {
    var found := Find(log.commands, operationId);
    found.Some? && Terminal(log.commands[found.value]) && log.commands[found.value].receipt == Some(receipt)
  }

  ghost predicate Remembers(memo: map<string, Receipt>, operationId: string, response: Receipt) {
    operationId in memo && memo[operationId] == response
  }

  ghost predicate DraftOk(naming: Naming, tenant: string, draft: Draft) {
    && draft.operationId != ""
    && draft.tenantId == tenant
    && match draft.bodyRef
       case None => draft.bodyHash == Digest(draft.body)
       case Some(ref) => ref == naming(tenant, draft.operationId)
  }

  ghost predicate LogOk(naming: Naming, tenant: string, log: Log, memo: map<string, Receipt>) {
    && Inv(log)
    && (forall i | 0 <= i < |log.commands| ::
          var command := log.commands[i];
          && DraftOk(naming, tenant, command.draft)
          && (Terminal(command) ==>
                && command.receipt.Some?
                && Remembers(memo, command.draft.operationId, command.receipt.value)
                && command.status == TerminalStatus(command.receipt.value)))
  }

  ghost predicate ServeOk(naming: Naming, tenant: string, log: Log, memo: map<string, Receipt>,
                          request: Request, stage: Stage) {
    && request.tenantId == tenant
    && (!(stage.Arrived? || stage.Ended?) ==> request.operationId != "" && Journals(log, DraftOf(naming, request)))
    && (stage.Staged? || stage.Fetched? || stage.Settled? ==> request.binary)
    && (stage.Fetched? ==> stage.payload == request.body)
    && (stage.Answered? ==> Remembers(memo, request.operationId, stage.response))
    && (stage.Settled? || stage.Replied? ==> TerminalWith(log, request.operationId, stage.receipt))
  }

  ghost predicate Snapshot(log: Log, command: Command) {
    && 1 <= command.sequence <= |log.commands|
    && log.commands[command.sequence - 1].draft == command.draft
  }

  ghost predicate ReplayOk(log: Log, memo: map<string, Receipt>, queue: seq<Command>, phase: Phase) {
    && Increasing(queue)
    && (forall command | command in queue :: Snapshot(log, command))
    && (queue != [] && phase.Loaded? ==> Digest(phase.payload) == queue[0].draft.bodyHash)
    && (queue != [] && phase.Heard? ==> Remembers(memo, queue[0].draft.operationId, phase.response))
    && (queue != [] && phase.Recorded? ==>
          Snapshot(log, queue[0]) && Terminal(log.commands[queue[0].sequence - 1]))
  }

  ghost predicate ProcessOk(naming: Naming, tenant: string, log: Log, memo: map<string, Receipt>, process: Process) {
    match process
    case Serve(request, stage) => ServeOk(naming, tenant, log, memo, request, stage)
    case Replay(queue, _, phase) => ReplayOk(log, memo, queue, phase)
  }

  // A message that says what the record says. The search part of a binary request is not journaled, so there the path
  // is only a prefix of the target; neither is the content type of a text request, and a retry need not repeat it.
  ghost predicate Matches(message: Message, draft: Draft) {
    && message.operationId == draft.operationId && message.tenantId == draft.tenantId
    && message.verb == draft.verb && message.mcpSessionId == draft.mcpSessionId
    && Digest(message.payload) == draft.bodyHash
    && (if draft.bodyRef.None? then message.target == draft.path else draft.path <= message.target)
  }

  ghost predicate MessageOk(log: Log, message: Message) {
    var found := Find(log.commands, message.operationId);
    found.Some? && Matches(message, log.commands[found.value].draft)
  }

  function Ids(effects: seq<Message>): set<string> {
    if effects == [] then {} else Ids(effects[..|effects| - 1]) + {effects[|effects| - 1].operationId}
  }

  // No operation takes effect twice.
  ghost predicate Once(effects: seq<Message>) {
    effects == []
    || (Once(effects[..|effects| - 1])
        && effects[|effects| - 1].operationId !in Ids(effects[..|effects| - 1]))
  }

  ghost predicate ContainerOk(log: Log, container: Container) {
    && (forall message | message in container.seen :: MessageOk(log, message))
    && (forall message | message in container.effects :: message in container.seen)
    && Once(container.effects)
    && container.memo.Keys == Ids(container.effects)
  }

  ghost predicate ObjectsOk(log: Log, objects: map<string, string>, uploaded: set<string>) {
    && (forall i | 0 <= i < |log.commands| ::
          match log.commands[i].draft.bodyRef
          case None => true
          case Some(ref) =>
            && (ref in objects ==> Digest(objects[ref]) == log.commands[i].draft.bodyHash)
            && (ref in uploaded && !Terminal(log.commands[i]) ==> ref in objects))
    && (forall ref | ref in objects || ref in uploaded ::
          exists i :: 0 <= i < |log.commands| && log.commands[i].draft.bodyRef == Some(ref))
  }

  ghost predicate ReplyOk(log: Log, reply: Reply) {
    Journals(log, reply.draft) && TerminalWith(log, reply.draft.operationId, reply.receipt)
  }

  ghost predicate Safe(w: World) {
    && Injective(w.naming)
    && LogOk(w.naming, w.tenant, w.log, w.container.memo)
    && (forall pid | pid in w.processes :: ProcessOk(w.naming, w.tenant, w.log, w.container.memo, w.processes[pid]))
    && ContainerOk(w.log, w.container)
    && ObjectsOk(w.log, w.objects, w.uploaded)
    && (forall reply | reply in w.replies :: ReplyOk(w.log, reply))
  }

  ghost predicate Grown(memo: map<string, Receipt>, later: map<string, Receipt>) {
    forall id | id in memo :: id in later && later[id] == memo[id]
  }

  /******* Facts about one record survive *******/

  lemma FindLater(log: Log, later: Log, operationId: string)
    requires Inv(log) && Inv(later) && Later(log, later) && Find(log.commands, operationId).Some?
    ensures Find(later.commands, operationId) == Find(log.commands, operationId)
  {
    var i := Find(log.commands, operationId).value;
    assert later.commands[i].draft == log.commands[i].draft;
    FindUnique(later, i);
  }

  lemma ProcessLater(naming: Naming, tenant: string, log: Log, later: Log, memo: map<string, Receipt>,
                     grown: map<string, Receipt>, process: Process)
    requires Inv(log) && Inv(later) && Later(log, later) && Grown(memo, grown)
    requires ProcessOk(naming, tenant, log, memo, process)
    ensures ProcessOk(naming, tenant, later, grown, process)
  {
    match process
    case Serve(request, stage) =>
      if Find(log.commands, request.operationId).Some? {
        FindLater(log, later, request.operationId);
      }
    case Replay(queue, _, phase) =>
      forall command | command in queue ensures Snapshot(later, command) {
        assert Snapshot(log, command);
      }
      if queue != [] {
        assert queue[0] in queue;
      }
  }

  // When the journal and the container's memory only grow, what was true of the other processes and of the
  // replies stays true.
  lemma OthersLater(w: World, v: World, pid: nat)
    requires Safe(w) && v.tenant == w.tenant && v.naming == w.naming
    requires LogOk(w.naming, w.tenant, v.log, v.container.memo)
    requires Later(w.log, v.log) && Grown(w.container.memo, v.container.memo)
    requires pid in v.processes && v.processes == w.processes[pid := v.processes[pid]]
    requires ProcessOk(w.naming, w.tenant, v.log, v.container.memo, v.processes[pid])
    requires ContainerOk(v.log, v.container) && ObjectsOk(v.log, v.objects, v.uploaded)
    requires forall reply | reply in v.replies :: reply in w.replies || ReplyOk(v.log, reply)
    ensures Safe(v)
  {
    forall p | p in v.processes ensures ProcessOk(w.naming, w.tenant, v.log, v.container.memo, v.processes[p]) {
      if p != pid {
        ProcessLater(w.naming, w.tenant, w.log, v.log, w.container.memo, v.container.memo, v.processes[p]);
      }
    }
    forall reply | reply in v.replies ensures ReplyOk(v.log, reply) {
      if reply in w.replies {
        FindLater(w.log, v.log, reply.draft.operationId);
      }
    }
  }

  lemma ContainerLater(log: Log, later: Log, container: Container)
    requires ContainerOk(log, container) && Inv(log) && Inv(later) && Later(log, later)
    ensures ContainerOk(later, container)
  {
    forall message | message in container.seen ensures MessageOk(later, message) {
      FindLater(log, later, message.operationId);
    }
  }

  lemma ObjectsLater(naming: Naming, tenant: string, log: Log, later: Log, objects: map<string, string>,
                     uploaded: set<string>)
    requires Injective(naming) && ObjectsOk(log, objects, uploaded) && Later(log, later) && Inv(log) && Inv(later)
    requires forall i | 0 <= i < |log.commands| :: DraftOk(naming, tenant, log.commands[i].draft)
    requires forall i | 0 <= i < |later.commands| :: DraftOk(naming, tenant, later.commands[i].draft)
    ensures ObjectsOk(later, objects, uploaded)
  {
    forall ref | ref in objects || ref in uploaded
      ensures exists i :: 0 <= i < |later.commands| && later.commands[i].draft.bodyRef == Some(ref)
    {
      var i :| 0 <= i < |log.commands| && log.commands[i].draft.bodyRef == Some(ref);
      assert later.commands[i].draft == log.commands[i].draft;
    }
    forall i | 0 <= i < |later.commands| && later.commands[i].draft.bodyRef.Some?
      ensures var ref := later.commands[i].draft.bodyRef.value;
        && (ref in objects ==> Digest(objects[ref]) == later.commands[i].draft.bodyHash)
        && (ref in uploaded && !Terminal(later.commands[i]) ==> ref in objects)
    {
      var ref := later.commands[i].draft.bodyRef.value;
      if ref in objects || ref in uploaded {
        var j :| 0 <= j < |log.commands| && log.commands[j].draft.bodyRef == Some(ref);
        assert later.commands[j].draft == log.commands[j].draft;
        assert later.commands[i].draft.operationId == later.commands[j].draft.operationId;
        assert i == j;
      }
    }
  }

  // A journal step of one process leaves the world safe.
  lemma JournalStep(w: World, pid: nat, log: Log, process: Process, replies: seq<Reply>)
    requires Safe(w) && pid in w.processes
    requires LogOk(w.naming, w.tenant, log, w.container.memo) && Later(w.log, log)
    requires ProcessOk(w.naming, w.tenant, log, w.container.memo, process)
    requires forall reply | reply in replies :: reply in w.replies || ReplyOk(log, reply)
    ensures Safe(Become(w.(log := log), pid, process).(replies := replies))
  {
    ObjectsLater(w.naming, w.tenant, w.log, log, w.objects, w.uploaded);
    ContainerLater(w.log, log, w.container);
    OthersLater(w, Become(w.(log := log), pid, process).(replies := replies), pid);
  }

  lemma JournalOnly(w: World, pid: nat, log: Log, process: Process)
    requires Safe(w) && pid in w.processes
    requires LogOk(w.naming, w.tenant, log, w.container.memo) && Later(w.log, log)
    requires ProcessOk(w.naming, w.tenant, log, w.container.memo, process)
    ensures Safe(Become(w.(log := log), pid, process))
  {
    JournalStep(w, pid, log, process, w.replies);
    var v := Become(w.(log := log), pid, process);
    assert v.(replies := w.replies) == v;
  }

  /******* Each step is safe *******/

  lemma DraftSafe(naming: Naming, tenant: string, log: Log, memo: map<string, Receipt>, draft: Draft)
    requires LogOk(naming, tenant, log, memo) && DraftOk(naming, tenant, draft)
    ensures var (r, later) := Prepare(log, tenant, draft);
      && LogOk(naming, tenant, later, memo) && Later(log, later)
      && (r.Err? ==> later == log)
      && (r.Ok? ==> Journals(later, draft))
      && (r.Ok? && r.value.reused ==>
            && later == log
            && Find(log.commands, draft.operationId).Some?
            && log.commands[Find(log.commands, draft.operationId).value] == r.value.command)
  {
    PrepareKeeps(log, tenant, draft);
    var (r, later) := Prepare(log, tenant, draft);
    if Find(log.commands, draft.operationId).None? {
      AppendSafe(naming, tenant, log, memo, draft, later);
    } else {
      assert later == log;
    }
  }

  lemma AppendSafe(naming: Naming, tenant: string, log: Log, memo: map<string, Receipt>, draft: Draft, later: Log)
    requires LogOk(naming, tenant, log, memo) && DraftOk(naming, tenant, draft) && Inv(later)
    requires later == log.(commands := log.commands + [Command(draft, |log.commands| + 1, Pending, None)])
    ensures LogOk(naming, tenant, later, memo) && Later(log, later) && Journals(later, draft)
  {
    var n := |log.commands|;
    assert later.commands[n].draft == draft && forall i | 0 <= i < n :: later.commands[i] == log.commands[i];
    FindUnique(later, n);
  }

  lemma PrepareSafe(naming: Naming, tenant: string, log: Log, memo: map<string, Receipt>, request: Request)
    requires LogOk(naming, tenant, log, memo) && request.tenantId == tenant && request.operationId != ""
    ensures var (r, later) := Prepare(log, tenant, DraftOf(naming, request));
      && LogOk(naming, tenant, later, memo) && Later(log, later)
      && (r.Err? ==> later == log)
      && (r.Ok? ==> Journals(later, DraftOf(naming, request)))
      && (r.Ok? && r.value.reused ==>
            && later == log
            && Find(log.commands, request.operationId).Some?
            && log.commands[Find(log.commands, request.operationId).value] == r.value.command)
  {
    DraftSafe(naming, tenant, log, memo, DraftOf(naming, request));
  }

  lemma FinalizeSafe(naming: Naming, tenant: string, log: Log, memo: map<string, Receipt>, operationId: string,
                     response: Receipt)
    requires LogOk(naming, tenant, log, memo)
    requires Find(log.commands, operationId).Some? && Remembers(memo, operationId, response)
    ensures var (r, later) := Finalize(log, operationId, TerminalStatus(response), response);
      && LogOk(naming, tenant, later, memo) && Later(log, later) && r.Ok?
      && TerminalWith(later, operationId, response)
      && Find(later.commands, operationId) == Find(log.commands, operationId)
  {
    FinalizeKeeps(log, operationId, TerminalStatus(response), response);
    var (r, later) := Finalize(log, operationId, TerminalStatus(response), response);
    FindLater(log, later, operationId);
  }

  lemma OnceMore(effects: seq<Message>, message: Message)
    requires Once(effects) && message.operationId !in Ids(effects)
    ensures Once(effects + [message])
    ensures Ids(effects + [message]) == Ids(effects) + {message.operationId}
  {
    assert (effects + [message])[..|effects|] == effects;
  }

  lemma RememberedAgain(log: Log, container: Container, message: Message)
    requires ContainerOk(log, container) && MessageOk(log, message)
    ensures ContainerOk(log, container.(seen := container.seen + [message]))
  {
    var seen := container.seen + [message];
    forall m | m in seen ensures MessageOk(log, m) {
      assert m in container.seen || m == message;
    }
    assert forall m | m in container.effects :: m in container.seen && m in seen;
  }

  lemma RememberedFirst(log: Log, container: Container, message: Message, novel: Receipt)
    requires ContainerOk(log, container) && MessageOk(log, message) && message.operationId !in container.memo
    ensures ContainerOk(log, Container(container.memo[message.operationId := novel], container.effects + [message],
                                       container.seen + [message]))
  {
    var (memo, effects) := (container.memo[message.operationId := novel], container.effects + [message]);
    OnceMore(container.effects, message);
    assert memo.Keys == container.memo.Keys + {message.operationId};
    RememberedAgain(log, container, message);
    forall m | m in effects ensures m in container.seen + [message] {
      assert m in container.effects || m == message;
    }
  }

  lemma DeliverSafe(log: Log, container: Container, message: Message, novel: Receipt)
    requires ContainerOk(log, container) && MessageOk(log, message)
    ensures var (response, later) := Deliver(container, message, novel);
      && ContainerOk(log, later) && Grown(container.memo, later.memo)
      && Remembers(later.memo, message.operationId, response)
  {
    if message.operationId in container.memo {
      RememberedAgain(log, container, message);
    } else {
      RememberedFirst(log, container, message, novel);
    }
  }

  lemma LiveMessageOk(naming: Naming, log: Log, request: Request)
    requires Journals(log, DraftOf(naming, request))
    ensures MessageOk(log, LiveMessage(request, request.body))
  {
    if request.binary {
      assert request.pathname <= request.pathname + request.search;
    }
  }

  lemma ForwardSafe(w: World, pid: nat, request: Request, novel: Receipt)
    requires Safe(w) && pid in w.processes
    requires request.tenantId == w.tenant && request.operationId != "" && Journals(w.log, DraftOf(w.naming, request))
    ensures Safe(Forward(w, pid, request, request.body, novel))
  {
    var v := Forward(w, pid, request, request.body, novel);
    LiveMessageOk(w.naming, w.log, request);
    DeliverSafe(w.log, w.container, LiveMessage(request, request.body), novel);
    OthersLater(w, v, pid);
  }

  lemma ServeSafe(w: World, pid: nat, request: Request, stage: Stage, novel: Receipt)
    requires Safe(w) && pid in w.processes && w.processes[pid] == Serve(request, stage)
    ensures Safe(AdvanceServe(w, pid, request, stage, novel))
    ensures Later(w.log, AdvanceServe(w, pid, request, stage, novel).log)
  {
    assert ProcessOk(w.naming, w.tenant, w.log, w.container.memo, w.processes[pid]);
    match stage
    case Arrived => ArrivedSafe(w, pid, request, novel);
    case Ready =>
      if request.binary {
        StageSafe(w, pid, request, novel);
      } else {
        ForwardSafe(w, pid, request, novel);
      }
    case Staged => FetchSafe(w, pid, request, novel);
    case Fetched(payload) => ForwardSafe(w, pid, request, novel);
    case Answered(response) => AnsweredSafe(w, pid, request, response, novel);
    case Settled(receipt) => SettledSafe(w, pid, request, receipt, novel);
    case Replied(_) =>
    case Ended =>
  }

  lemma ArrivedSafe(w: World, pid: nat, request: Request, novel: Receipt)
    requires Safe(w) && pid in w.processes && w.processes[pid] == Serve(request, Arrived)
    ensures Safe(AdvanceServe(w, pid, request, Arrived, novel))
    ensures Later(w.log, AdvanceServe(w, pid, request, Arrived, novel).log)
  {
    assert ProcessOk(w.naming, w.tenant, w.log, w.container.memo, w.processes[pid]);
    var v := AdvanceServe(w, pid, request, Arrived, novel);
    if Admit(request) != Journaled {
      EndedSafe(w, pid, request);
      assert v == Become(w, pid, Serve(request, Ended));
    } else {
      PrepareSafe(w.naming, w.tenant, w.log, w.container.memo, request);
      PreparedSafe(w, pid, request, novel);
    }
  }

  lemma EndedSafe(w: World, pid: nat, request: Request)
    requires Safe(w) && pid in w.processes && w.processes[pid] == Serve(request, Arrived)
    ensures Safe(Become(w, pid, Serve(request, Ended)))
  {
    assert ProcessOk(w.naming, w.tenant, w.log, w.container.memo, w.processes[pid]);
    JournalOnly(w, pid, w.log, Serve(request, Ended));
    assert w.(log := w.log) == w;
  }

  lemma PreparedSafe(w: World, pid: nat, request: Request, novel: Receipt)
    requires Safe(w) && pid in w.processes && w.processes[pid] == Serve(request, Arrived)
    requires Admit(request) == Journaled && request.tenantId == w.tenant && request.operationId != ""
    ensures Safe(AdvanceServe(w, pid, request, Arrived, novel))
    ensures Later(w.log, AdvanceServe(w, pid, request, Arrived, novel).log)
  {
    var draft := DraftOf(w.naming, request);
    PrepareSafe(w.naming, w.tenant, w.log, w.container.memo, request);
    var (prepared, log) := Prepare(w.log, w.tenant, draft);
    if prepared.Err? {
      EndedSafe(w, pid, request);
    } else if prepared.value.reused && Terminal(prepared.value.command) {
      var receipt := prepared.value.command.receipt.value;
      JournalStep(w, pid, w.log, Serve(request, Replied(receipt)), w.replies + [Reply(draft, receipt)]);
    } else {
      JournalOnly(w, pid, log, Serve(request, Ready));
    }
  }

  // The object a journaled binary request stages is the body its record describes.
  lemma StageSafe(w: World, pid: nat, request: Request, novel: Receipt)
    requires Safe(w) && pid in w.processes && w.processes[pid] == Serve(request, Ready) && request.binary
    ensures Safe(AdvanceServe(w, pid, request, Ready, novel))
  {
    assert ProcessOk(w.naming, w.tenant, w.log, w.container.memo, w.processes[pid]);
    var v := AdvanceServe(w, pid, request, Ready, novel);
    var ref := w.naming(request.tenantId, request.operationId);
    var k := Find(w.log.commands, request.operationId).value;
    assert w.log.commands[k].draft.bodyRef == Some(ref);
    OnlyRecordOf(w, k);
    ObjectAdded(w, k, request.body);
    OthersLater(w, v, pid);
  }

  lemma ObjectAdded(w: World, k: nat, body: string)
    requires k < |w.log.commands| && w.log.commands[k].draft.bodyRef.Some? && ObjectsOk(w.log, w.objects, w.uploaded)
    requires Digest(body) == w.log.commands[k].draft.bodyHash
    requires forall i
      | 0 <= i < |w.log.commands| && w.log.commands[i].draft.bodyRef == w.log.commands[k].draft.bodyRef ::
      i == k
    ensures var ref := w.log.commands[k].draft.bodyRef.value;
      ObjectsOk(w.log, w.objects[ref := body], w.uploaded + {ref})
  {
  }

  lemma ObjectRemoved(w: World, k: nat)
    requires k < |w.log.commands| && w.log.commands[k].draft.bodyRef.Some? && ObjectsOk(w.log, w.objects, w.uploaded)
    requires Terminal(w.log.commands[k])
    requires forall i
      | 0 <= i < |w.log.commands| && w.log.commands[i].draft.bodyRef == w.log.commands[k].draft.bodyRef ::
      i == k
    ensures ObjectsOk(w.log, w.objects - {w.log.commands[k].draft.bodyRef.value}, w.uploaded)
  {
  }

  lemma OnlyRecordOf(w: World, k: nat)
    requires Injective(w.naming) && LogOk(w.naming, w.tenant, w.log, w.container.memo) && k < |w.log.commands|
    requires w.log.commands[k].draft.bodyRef.Some?
    ensures forall i
      | 0 <= i < |w.log.commands| && w.log.commands[i].draft.bodyRef == w.log.commands[k].draft.bodyRef ::
      i == k
  {
    forall i | 0 <= i < |w.log.commands| && w.log.commands[i].draft.bodyRef == w.log.commands[k].draft.bodyRef
      ensures i == k
    {
      assert w.log.commands[i].draft.operationId == w.log.commands[k].draft.operationId;
    }
  }

  lemma FetchSafe(w: World, pid: nat, request: Request, novel: Receipt)
    requires Safe(w) && pid in w.processes && w.processes[pid] == Serve(request, Staged)
    ensures Safe(AdvanceServe(w, pid, request, Staged, novel))
  {
    assert ProcessOk(w.naming, w.tenant, w.log, w.container.memo, w.processes[pid]);
    var v := AdvanceServe(w, pid, request, Staged, novel);
    var k := Find(w.log.commands, request.operationId).value;
    assert w.log.commands[k].draft.bodyRef == Some(w.naming(request.tenantId, request.operationId));
    OthersLater(w, v, pid);
  }

  lemma AnsweredSafe(w: World, pid: nat, request: Request, response: Receipt, novel: Receipt)
    requires Safe(w) && pid in w.processes && w.processes[pid] == Serve(request, Answered(response))
    ensures Safe(AdvanceServe(w, pid, request, Answered(response), novel))
    ensures Later(w.log, AdvanceServe(w, pid, request, Answered(response), novel).log)
  {
    assert ProcessOk(w.naming, w.tenant, w.log, w.container.memo, w.processes[pid]);
    FinalizeSafe(w.naming, w.tenant, w.log, w.container.memo, request.operationId, response);
    var log := Finalize(w.log, request.operationId, TerminalStatus(response), response).1;
    FindLater(w.log, log, request.operationId);
    AnsweredBecomes(w, pid, request, response, novel);
    if request.binary {
      JournalOnly(w, pid, log, Serve(request, Settled(response)));
    } else {
      JournalStep(w, pid, log, Serve(request, Replied(response)),
                  w.replies + [Reply(DraftOf(w.naming, request), response)]);
    }
  }

  lemma AnsweredBecomes(w: World, pid: nat, request: Request, response: Receipt, novel: Receipt)
    requires Finalize(w.log, request.operationId, TerminalStatus(response), response).0.Ok?
    ensures var log := Finalize(w.log, request.operationId, TerminalStatus(response), response).1;
      AdvanceServe(w, pid, request, Answered(response), novel) ==
        if request.binary then Become(w.(log := log), pid, Serve(request, Settled(response)))
        else Become(w.(log := log), pid, Serve(request, Replied(response)))
               .(replies := w.replies + [Reply(DraftOf(w.naming, request), response)])
  {
  }

  lemma SettledSafe(w: World, pid: nat, request: Request, receipt: Receipt, novel: Receipt)
    requires Safe(w) && pid in w.processes && w.processes[pid] == Serve(request, Settled(receipt))
    ensures Safe(AdvanceServe(w, pid, request, Settled(receipt), novel))
  {
    assert ProcessOk(w.naming, w.tenant, w.log, w.container.memo, w.processes[pid]);
    var v := AdvanceServe(w, pid, request, Settled(receipt), novel);
    var k := Find(w.log.commands, request.operationId).value;
    assert w.log.commands[k].draft.bodyRef == Some(w.naming(request.tenantId, request.operationId));
    OnlyRecordOf(w, k);
    ObjectRemoved(w, k);
    OthersLater(w, v, pid);
  }

  lemma ReplaySafe(w: World, pid: nat, queue: seq<Command>, replayed: seq<string>, phase: Phase, novel: Receipt)
    requires Safe(w) && pid in w.processes && w.processes[pid] == Replay(queue, replayed, phase)
    ensures Safe(AdvanceReplay(w, pid, queue, replayed, phase, novel))
    ensures Later(w.log, AdvanceReplay(w, pid, queue, replayed, phase, novel).log)
  {
    if queue != [] {
      match phase
      case Next => LoadSafe(w, pid, queue, replayed, novel);
      case Loaded(payload) => ReplayForwardSafe(w, pid, queue, replayed, payload, novel);
      case Heard(response) => HeardSafe(w, pid, queue, replayed, response, novel);
      case Recorded => RecordedSafe(w, pid, queue, replayed, novel);
      case Stuck =>
    }
  }

  // The head of a replay queue is the journal's record under its sequence.
  lemma HeadOfQueue(w: World, pid: nat, queue: seq<Command>, replayed: seq<string>, phase: Phase) returns (k: nat)
    requires Safe(w) && pid in w.processes && w.processes[pid] == Replay(queue, replayed, phase) && queue != []
    ensures ReplayOk(w.log, w.container.memo, queue, phase)
    ensures k == queue[0].sequence - 1 && k < |w.log.commands| && w.log.commands[k].draft == queue[0].draft
    ensures Find(w.log.commands, queue[0].draft.operationId) == Some(k)
    ensures DraftOk(w.naming, w.tenant, queue[0].draft)
  {
    assert ProcessOk(w.naming, w.tenant, w.log, w.container.memo, w.processes[pid]);
    assert queue[0] in queue;
    assert Snapshot(w.log, queue[0]);
    k := queue[0].sequence - 1;
    FindUnique(w.log, k);
  }

  lemma LoadSafe(w: World, pid: nat, queue: seq<Command>, replayed: seq<string>, novel: Receipt)
    requires Safe(w) && pid in w.processes && w.processes[pid] == Replay(queue, replayed, Next) && queue != []
    ensures Safe(AdvanceReplay(w, pid, queue, replayed, Next, novel))
  {
    var k := HeadOfQueue(w, pid, queue, replayed, Next);
    OthersLater(w, AdvanceReplay(w, pid, queue, replayed, Next, novel), pid);
  }

  lemma ReplayForwardSafe(w: World, pid: nat, queue: seq<Command>, replayed: seq<string>, payload: string,
                          novel: Receipt)
    requires Safe(w) && pid in w.processes && w.processes[pid] == Replay(queue, replayed, Loaded(payload))
    requires queue != []
    ensures Safe(AdvanceReplay(w, pid, queue, replayed, Loaded(payload), novel))
  {
    var k := HeadOfQueue(w, pid, queue, replayed, Loaded(payload));
    DeliverSafe(w.log, w.container, ReplayMessage(w.tenant, queue[0].draft, payload), novel);
    OthersLater(w, AdvanceReplay(w, pid, queue, replayed, Loaded(payload), novel), pid);
  }

  lemma RecordedOk(log: Log, later: Log, memo: map<string, Receipt>, queue: seq<Command>, response: Receipt, k: nat)
    requires Inv(log) && Inv(later) && Later(log, later) && ReplayOk(log, memo, queue, Heard(response)) && queue != []
    requires k == queue[0].sequence - 1 && Find(later.commands, queue[0].draft.operationId) == Some(k)
    requires TerminalWith(later, queue[0].draft.operationId, response)
    ensures ReplayOk(later, memo, queue, Recorded)
  {
    forall command | command in queue ensures Snapshot(later, command) {
      assert Snapshot(log, command);
    }
    assert queue[0] in queue;
  }

  lemma HeardSafe(w: World, pid: nat, queue: seq<Command>, replayed: seq<string>, response: Receipt, novel: Receipt)
    requires Safe(w) && pid in w.processes && w.processes[pid] == Replay(queue, replayed, Heard(response))
    requires queue != []
    ensures Safe(AdvanceReplay(w, pid, queue, replayed, Heard(response), novel))
    ensures Later(w.log, AdvanceReplay(w, pid, queue, replayed, Heard(response), novel).log)
  {
    var k := HeadOfQueue(w, pid, queue, replayed, Heard(response));
    var operationId := queue[0].draft.operationId;
    FinalizeSafe(w.naming, w.tenant, w.log, w.container.memo, operationId, response);
    var log := Finalize(w.log, operationId, TerminalStatus(response), response).1;
    RecordedOk(w.log, log, w.container.memo, queue, response, k);
    JournalOnly(w, pid, log, Replay(queue, replayed, Recorded));
    HeardBecomes(w, pid, queue, replayed, response, novel);
  }

  lemma HeardBecomes(w: World, pid: nat, queue: seq<Command>, replayed: seq<string>, response: Receipt, novel: Receipt)
    requires queue != []
    requires Finalize(w.log, queue[0].draft.operationId, TerminalStatus(response), response).0.Ok?
    ensures var log := Finalize(w.log, queue[0].draft.operationId, TerminalStatus(response), response).1;
      AdvanceReplay(w, pid, queue, replayed, Heard(response), novel) ==
      Become(w.(log := log), pid, Replay(queue, replayed, Recorded))
  {
  }

  lemma RestOk(log: Log, memo: map<string, Receipt>, queue: seq<Command>)
    requires ReplayOk(log, memo, queue, Recorded) && queue != []
    ensures ReplayOk(log, memo, queue[1..], Next)
  {
    assert forall i | 0 <= i < |queue| - 1 :: queue[1..][i] == queue[i + 1];
    forall command | command in queue[1..] ensures Snapshot(log, command) {
      assert command in queue;
    }
  }

  lemma RecordedSafe(w: World, pid: nat, queue: seq<Command>, replayed: seq<string>, novel: Receipt)
    requires Safe(w) && pid in w.processes && w.processes[pid] == Replay(queue, replayed, Recorded) && queue != []
    ensures Safe(AdvanceReplay(w, pid, queue, replayed, Recorded, novel))
  {
    var k := HeadOfQueue(w, pid, queue, replayed, Recorded);
    if queue[0].draft.bodyRef.Some? {
      OnlyRecordOf(w, k);
      ObjectRemoved(w, k);
    }
    RestOk(w.log, w.container.memo, queue);
    OthersLater(w, AdvanceReplay(w, pid, queue, replayed, Recorded, novel), pid);
  }

  lemma PendingSnapshot(log: Log)
    requires Inv(log)
    ensures Increasing(PendingOf(log.commands))
    ensures forall command | command in PendingOf(log.commands) :: Snapshot(log, command)
  {
    PendingOfIncreasing(log.commands);
    forall command | command in PendingOf(log.commands) ensures Snapshot(log, command) {
      var i :| 0 <= i < |log.commands| && log.commands[i] == command;
    }
  }

  lemma WakeSafe(w: World, pid: nat)
    requires Safe(w)
    ensures Safe(After(w, Wake(pid)))
  {
    if pid !in w.processes {
      PendingSnapshot(w.log);
      var queue := PendingOf(w.log.commands);
      assert ReplayOk(w.log, w.container.memo, queue, Next);
      OthersLater(w, Become(w, pid, Replay(queue, [], Next)), pid);
    }
  }

  lemma StepSafe(w: World, step: Step)
    requires Safe(w)
    ensures Safe(After(w, step))
    ensures Later(w.log, After(w, step).log)
  {
    match step
    case Arrive(pid, request) =>
      if pid !in w.processes && request.tenantId == w.tenant {
        OthersLater(w, After(w, step), pid);
      }
    case Wake(pid) => WakeSafe(w, pid);
    case Advance(pid, novel) =>
      if pid in w.processes {
        match w.processes[pid]
        case Serve(request, stage) => ServeSafe(w, pid, request, stage, novel);
        case Replay(queue, replayed, phase) => ReplaySafe(w, pid, queue, replayed, phase, novel);
      }
    case Crash(pid) =>
  }

  lemma {:induction false} HasControlExactly(s: string)
    ensures HasControl(s) <==> exists i :: 0 <= i < |s| && (s[i] < ' ' || s[i] == 127 as char)
  {
    if s != [] {
      HasControlExactly(s[1..]);
      assert forall i | 0 < i < |s| :: s[i] == s[1..][i - 1];
      if i :| 0 <= i < |s[1..]| && (s[1..][i] < ' ' || s[1..][i] == 127 as char) {
        assert s[i + 1] == s[1..][i];
      }
    }
  }

  predicate ReadOnly(request: Request) { request.verb == "GET" || request.verb == "HEAD" }

  predicate Small(request: Request) { |Utf8.Encode(request.body)| <= 1_048_576 }

  // A text request that may change something and whose body is not too large.
  predicate NeedsJournal(request: Request) {
    && !request.binary && !ReadOnly(request) && Small(request)
    && !(request.pathname == "/mcp" && request.protocolOnly)
  }

  ghost predicate Printable(s: string) { forall i | 0 <= i < |s| :: s[i] >= ' ' && s[i] != 127 as char }

  // What goes to the container without a record.
  predicate PassesThrough(request: Request) {
    && !request.binary
    && (ReadOnly(request) || (Small(request) && request.pathname == "/mcp" && request.protocolOnly))
  }

  // What is answered without the container, in terms of what the request carries.
  ghost predicate RefusedWith(request: Request, status: int, code: string) {
    var (id, tenant) := (request.operationId, request.tenantId);
    || (status == 413 && code == "body_too_large"
        && if request.binary then 1 <= |id| <= 255 && tenant != "" && |request.body| > 536_870_912
           else !ReadOnly(request) && !Small(request))
    || (status == 400 && code == "operation_id_required"
        && if request.binary then id == "" || |id| > 255 else NeedsJournal(request) && id == "")
    || (status == 400 && code == "invalid_operation_id"
        && NeedsJournal(request) && id != "" && (|id| > 255 || !Printable(id)))
    || (status == 400 && code == "tenant_required" && 1 <= |id| <= 255 && tenant == ""
        && (request.binary || (NeedsJournal(request) && Printable(id))))
  }

  lemma DirectExactly(request: Request)
    ensures Admit(request) == Direct <==> PassesThrough(request)
  {
  }

  // Each refusal for its own reason, and only if no earlier guard fires.
  lemma RefusedExactly(request: Request, status: int, code: string)
    ensures Admit(request) == Refuse(status, code) <==> RefusedWith(request, status, code)
  {
    HasControlExactly(request.operationId);
    CodesApart();
  }

  lemma DecisionExactly(request: Request)
    ensures Admit(request) == Direct <==> PassesThrough(request)
    ensures forall status, code :: Admit(request) == Refuse(status, code) <==> RefusedWith(request, status, code)
  {
    forall status, code ensures Admit(request) == Refuse(status, code) <==> RefusedWith(request, status, code) {
      RefusedExactly(request, status, code);
    }
  }

  lemma CodesApart()
    ensures "body_too_large" != "operation_id_required" && "body_too_large" != "invalid_operation_id"
    ensures "body_too_large" != "tenant_required" && "operation_id_required" != "invalid_operation_id"
    ensures "operation_id_required" != "tenant_required" && "invalid_operation_id" != "tenant_required"
  {
    assert "body_too_large"[0] == 'b' && "operation_id_required"[0] == 'o';
    assert "invalid_operation_id"[0] == 'i' && "tenant_required"[0] == 't';
  }

  // What is journaled: a named operation of a named tenant whose body is not too large; a text request, besides, only
  // if it may change something and its name is printable.
  lemma AdmitExactly(request: Request)
    ensures Admit(request) == Journaled <==>
      && 1 <= |request.operationId| <= 255 && request.tenantId != ""
      && if request.binary then |request.body| <= 536_870_912
         else && request.verb != "GET" && request.verb != "HEAD"
              && !(request.pathname == "/mcp" && request.protocolOnly)
              && |Utf8.Encode(request.body)| <= 1_048_576
              && forall i | 0 <= i < |request.operationId| ::
                   request.operationId[i] >= ' ' && request.operationId[i] != 127 as char
  {
    HasControlExactly(request.operationId);
  }
}
