/** The command journal as an append-only sequence of commands and a high-water mark:
    what `TenantJournal` promises, before any key of the raw store is looked at. */
module JournalSpec {
  import opened Wrappers
  import Lists

  datatype Status = Pending | Applied | Rejected

  // A collision-free digest: it determines the bytes it was taken of.
  datatype Digest = Digest(of: string)

  datatype Receipt = Receipt(status: int, statusText: string, headers: map<string, string>, body: string)

  datatype Draft = Draft(
    operationId: string, tenantId: string, verb: string, path: string, body: string, bodyHash: Digest,
    bodyRef: Option<string>, contentType: Option<string>, mcpSessionId: Option<string>, createdAtMs: int)

  datatype Command = Command(draft: Draft, sequence: nat, status: Status, receipt: Option<Receipt>)

  datatype Log = Log(commands: seq<Command>, mark: nat)

  datatype Prepared = Prepared(command: Command, reused: bool)

  datatype Finalized = Finalized(command: Command, highWaterMark: nat)

  datatype Failure = TenantMismatch | OperationConflict | OperationUnknown

  predicate Terminal(command: Command) { command.status != Pending }

  // The fields a retry has to repeat; content type and creation time are not among them.
  predicate SameFingerprint(a: Draft, b: Draft) {
    && a.bodyHash == b.bodyHash && a.path == b.path && a.verb == b.verb
    && a.tenantId == b.tenantId && a.bodyRef == b.bodyRef && a.mcpSessionId == b.mcpSessionId
  }

  function Find(commands: seq<Command>, operationId: string): (r: Option<nat>)
    ensures r.Some? ==> r.value < |commands| && commands[r.value].draft.operationId == operationId
    ensures r.None? ==> forall command | command in commands :: command.draft.operationId != operationId
  {
    if commands == [] then None
    else if commands[|commands| - 1].draft.operationId == operationId then Some(|commands| - 1)
    else Find(commands[..|commands| - 1], operationId)
  }

  // The mark moves over named terminal commands and stops at the first other one.
  function Scan(commands: seq<Command>, mark: nat): (r: nat)
    ensures mark <= r && (mark <= |commands| ==> r <= |commands|)
    decreases |commands| - mark
  {
    if mark < |commands| && commands[mark].draft.operationId != "" && Terminal(commands[mark])
    then Scan(commands, mark + 1)
    else mark
  }

  function Prepare(log: Log, tenantId: string, draft: Draft): (Result<Prepared, Failure>, Log) {
    if draft.tenantId != tenantId then (Err(TenantMismatch), log)
    else
      match Find(log.commands, draft.operationId)
      case Some(i) =>
        if SameFingerprint(log.commands[i].draft, draft)
        then (Ok(Prepared(log.commands[i], true)), log)
        else (Err(OperationConflict), log)
      case None =>
        var command := Command(draft, |log.commands| + 1, Pending, None);
        (Ok(Prepared(command, false)), log.(commands := log.commands + [command]))
  }

  function Settle(log: Log, i: nat, status: Status, receipt: Receipt): Log
    requires i < |log.commands|
  {
    log.(commands := log.commands[i := log.commands[i].(status := status, receipt := Some(receipt))])
  }

  function Finalize(log: Log, operationId: string, status: Status, receipt: Receipt)
    : (Result<Finalized, Failure>, Log)
  {
    match Find(log.commands, operationId)
    case None => (Err(OperationUnknown), log)
    case Some(i) =>
      if Terminal(log.commands[i]) then (Ok(Finalized(log.commands[i], log.mark)), log)
      else
        var settled := Settle(log, i, status, receipt);
        var mark := Scan(settled.commands, log.mark);
        (Ok(Finalized(settled.commands[i], mark)), settled.(mark := mark))
  }

  // The pending commands in sequence order.
  function PendingOf(commands: seq<Command>): seq<Command> {
    if commands == [] then []
    else if Terminal(commands[0]) then PendingOf(commands[1..])
    else [commands[0]] + PendingOf(commands[1..])
  }

  function OperationIds(commands: seq<Command>): seq<string> {
    seq(|commands|, i requires 0 <= i < |commands| => commands[i].draft.operationId)
  }

  /******* What every journal keeps *******/

  // Sequences are 1, 2, ..., one operation id names one command, exactly the terminal
  // commands have receipts, and every command up to the mark is terminal.
  ghost predicate Shape(log: Log) {
    && (forall i | 0 <= i < |log.commands| :: log.commands[i].sequence == i + 1)
    && (forall i, j | 0 <= i < j < |log.commands| ::
          log.commands[i].draft.operationId != log.commands[j].draft.operationId)
    && (forall i | 0 <= i < |log.commands| :: Terminal(log.commands[i]) <==> log.commands[i].receipt.Some?)
    && log.mark <= |log.commands|
    && (forall i | 0 <= i < log.mark :: Terminal(log.commands[i]) && log.commands[i].draft.operationId != "")
  }

  // Nothing lets the mark move further.
  ghost predicate Stopped(log: Log) {
    || log.mark >= |log.commands|
    || !Terminal(log.commands[log.mark])
    || log.commands[log.mark].draft.operationId == ""
  }

  ghost predicate Inv(log: Log) { Shape(log) && Stopped(log) }

  const EMPTY := Log([], 0)

  // From one journal to a later one: commands are only appended, what was
  // prepared stays as it was, terminal commands stay for good and the mark never goes back.
  ghost predicate Later(before: Log, after: Log) {
    && |before.commands| <= |after.commands|
    && before.mark <= after.mark
    && (forall i | 0 <= i < |before.commands| ::
          && after.commands[i].draft == before.commands[i].draft
          && after.commands[i].sequence == before.commands[i].sequence
          && (Terminal(before.commands[i]) ==> after.commands[i] == before.commands[i]))
  }

  lemma LaterTransitive(a: Log, b: Log, c: Log)
    requires Later(a, b) && Later(b, c)
    ensures Later(a, c)
  {
    forall i | 0 <= i < |a.commands|
      ensures c.commands[i].draft == a.commands[i].draft && c.commands[i].sequence == a.commands[i].sequence
      ensures Terminal(a.commands[i]) ==> c.commands[i] == a.commands[i]
    {
      assert b.commands[i].draft == a.commands[i].draft;
    }
  }

  lemma {:induction false} ScanStops(commands: seq<Command>, mark: nat)
    requires mark <= |commands|
    ensures var r := Scan(commands, mark);
      && (forall i | mark <= i < r :: Terminal(commands[i]) && commands[i].draft.operationId != "")
      && Stopped(Log(commands, r))
    decreases |commands| - mark
  {
    if mark < |commands| && commands[mark].draft.operationId != "" && Terminal(commands[mark]) {
      ScanStops(commands, mark + 1);
    }
  }

  lemma FindUnique(log: Log, i: nat)
    requires Shape(log) && i < |log.commands|
    ensures Find(log.commands, log.commands[i].draft.operationId) == Some(i)
  {
    var r := Find(log.commands, log.commands[i].draft.operationId);
    assert log.commands[i] in log.commands;
  }

  lemma {:induction false} PrepareKeeps(log: Log, tenantId: string, draft: Draft)
    requires Inv(log)
    ensures Inv(Prepare(log, tenantId, draft).1)
    ensures Later(log, Prepare(log, tenantId, draft).1)
  {
    var after := Prepare(log, tenantId, draft).1;
    if draft.tenantId == tenantId && Find(log.commands, draft.operationId).None? {
      forall i | 0 <= i < |log.commands| ensures log.commands[i].draft.operationId != draft.operationId {
        assert log.commands[i] in log.commands;
      }
    }
  }

  lemma SettleKeeps(log: Log, i: nat, status: Status, receipt: Receipt)
    requires Shape(log) && i < |log.commands| && !Terminal(log.commands[i]) && status != Pending
    ensures Shape(Settle(log, i, status, receipt)) && Later(log, Settle(log, i, status, receipt))
  {
    var settled := Settle(log, i, status, receipt);
    assert forall j | 0 <= j < |log.commands| :: settled.commands[j].draft == log.commands[j].draft;
  }

  lemma FinalizeKeeps(log: Log, operationId: string, status: Status, receipt: Receipt)
    requires Inv(log) && status != Pending
    ensures Inv(Finalize(log, operationId, status, receipt).1)
    ensures Later(log, Finalize(log, operationId, status, receipt).1)
  {
    var found := Find(log.commands, operationId);
    if found.Some? && !Terminal(log.commands[found.value]) {
      SettleKeeps(log, found.value, status, receipt);
      ScanStops(Settle(log, found.value, status, receipt).commands, log.mark);
    }
  }

  /******* Idempotence *******/

  // A retry of a prepared command finds that command and writes nothing, whatever
  // happened to the journal in between.
  lemma RetryReuses(log: Log, later: Log, draft: Draft, retry: Draft)
    requires Inv(log) && Inv(later)
    requires var (r, after) := Prepare(log, draft.tenantId, draft); r.Ok? && Later(after, later)
    requires retry.operationId == draft.operationId && SameFingerprint(draft, retry)
    ensures var (r, _) := Prepare(log, draft.tenantId, draft);
      var (again, same) := Prepare(later, retry.tenantId, retry);
      && same == later && again.Ok? && again.value.reused
      && again.value.command.sequence == r.value.command.sequence
      && again.value.command.draft == r.value.command.draft
  {
    var (r, after) := Prepare(log, draft.tenantId, draft);
    PrepareKeeps(log, draft.tenantId, draft);
    var i := r.value.command.sequence - 1;
    assert after.commands[i] == r.value.command;
    FindUnique(later, i);
  }

  // A later request that reuses an operation id with other content is refused and writes nothing.
  lemma {:induction false} ConflictChangesNothing(log: Log, i: nat, draft: Draft)
    requires Inv(log) && i < |log.commands|
    requires draft.operationId == log.commands[i].draft.operationId
    ensures Prepare(log, draft.tenantId, draft) == (Err(OperationConflict), log)
      <==> !SameFingerprint(log.commands[i].draft, draft)
  {
    FindUnique(log, i);
  }

  // The first outcome of an operation is the only one.
  lemma {:induction false} FirstOutcomeStays(log: Log, operationId: string, status: Status, receipt: Receipt,
                          later: Log, otherStatus: Status, otherReceipt: Receipt)
    requires Inv(log) && Inv(later) && status != Pending
    requires var (r, after) := Finalize(log, operationId, status, receipt); r.Ok? && Later(after, later)
    ensures var (r, _) := Finalize(log, operationId, status, receipt);
      var (again, same) := Finalize(later, operationId, otherStatus, otherReceipt);
      && same == later && again == Ok(Finalized(r.value.command, later.mark))
      && r.value.command.receipt.Some?
  {
    FinalizeKeeps(log, operationId, status, receipt);
    var (r, after) := Finalize(log, operationId, status, receipt);
    var i := Find(log.commands, operationId).value;
    assert after.commands[i] == r.value.command;
    FindUnique(later, i);
  }

  /******* The mark *******/

  // How many commands, from the first on, are terminal without a gap.
  function TerminalPrefix(commands: seq<Command>): (r: nat)
    ensures r <= |commands|
    ensures forall i | 0 <= i < r :: Terminal(commands[i])
    ensures r < |commands| ==> !Terminal(commands[r])
  {
    if commands == [] || !Terminal(commands[0]) then 0 else 1 + TerminalPrefix(commands[1..])
  }

  // The mark equals the contiguous terminal prefix exactly when no command in
  // that prefix was prepared under the empty operation id: the scan takes an
  // empty id for a missing one and stops there for good.
  lemma {:induction false} MarkIsTerminalPrefix(log: Log)
    requires Inv(log)
    ensures log.mark <= TerminalPrefix(log.commands)
    ensures log.mark == TerminalPrefix(log.commands) <==>
      (forall i | 0 <= i < TerminalPrefix(log.commands) :: log.commands[i].draft.operationId != "")
  {
    var prefix := TerminalPrefix(log.commands);
    if prefix < log.mark {
      assert false;
    }
    if log.mark < prefix {
      assert log.commands[log.mark].draft.operationId == "";
    }
  }

  // The same test before the calls: a journal whose drafts all have names keeps its mark exact.
  ghost predicate Named(log: Log) {
    forall command | command in log.commands :: command.draft.operationId != ""
  }

  lemma NamedMarkIsExact(log: Log)
    requires Inv(log) && Named(log)
    ensures log.mark == TerminalPrefix(log.commands)
    ensures PendingOf(log.commands) == [] <==> log.mark == |log.commands|
    ensures PendingOf(log.commands) != [] ==> PendingOf(log.commands)[0].sequence == log.mark + 1
  {
    MarkIsTerminalPrefix(log);
    PendingFirst(log.commands);
  }

  lemma {:induction false} PendingFirst(commands: seq<Command>)
    ensures PendingOf(commands) == [] <==> TerminalPrefix(commands) == |commands|
    ensures PendingOf(commands) != [] ==>
      TerminalPrefix(commands) < |commands| && PendingOf(commands)[0] == commands[TerminalPrefix(commands)]
  {
    if commands != [] && Terminal(commands[0]) {
      PendingFirst(commands[1..]);
    }
  }

  // One command prepared and finalized under the empty id leaves the mark at 0 for ever.
  lemma {:induction false} EmptyIdStopsTheMark(draft: Draft, receipt: Receipt, later: Log)
    requires draft.operationId == ""
    requires var prepared := Prepare(EMPTY, draft.tenantId, draft).1;
      Inv(later) && Later(Finalize(prepared, "", Applied, receipt).1, later)
    ensures later.mark == 0 && TerminalPrefix(later.commands) >= 1
  {
    var prepared := Prepare(EMPTY, draft.tenantId, draft).1;
    assert prepared.commands[0].draft == draft;
    var finalized := Finalize(prepared, "", Applied, receipt).1;
    assert Terminal(finalized.commands[0]);
    assert later.commands[0].draft.operationId == "" && Terminal(later.commands[0]);
  }

  /******* What the callers get *******/

  // A new operation gets the next sequence and waits; a known one gets its record if all six fields are repeated.
  lemma PrepareAnswers(log: Log, tenantId: string, draft: Draft)
    requires Inv(log)
    ensures var (r, later) := Prepare(log, tenantId, draft);
      && (r == Err(TenantMismatch) <==> draft.tenantId != tenantId)
      && (draft.tenantId == tenantId && (forall c | c in log.commands :: c.draft.operationId != draft.operationId) ==>
            var c := Command(draft, |log.commands| + 1, Pending, None);
            r == Ok(Prepared(c, false)) && later == Log(log.commands + [c], log.mark))
      && (forall c | c in log.commands && draft.tenantId == tenantId && c.draft.operationId == draft.operationId ::
            && later == log
            && r == if c.draft.bodyHash == draft.bodyHash && c.draft.path == draft.path && c.draft.verb == draft.verb
                       && c.draft.tenantId == tenantId && c.draft.bodyRef == draft.bodyRef
                       && c.draft.mcpSessionId == draft.mcpSessionId
                    then Ok(Prepared(c, true)) else Err(OperationConflict))
  {
    forall c | c in log.commands && c.draft.operationId == draft.operationId
      ensures Find(log.commands, draft.operationId).Some?
      ensures log.commands[Find(log.commands, draft.operationId).value] == c
    {
      var i :| 0 <= i < |log.commands| && log.commands[i] == c;
      FindUnique(log, i);
    }
  }

  // The record that `finalize` returns is the one it leaves in the journal, and the mark is that of the journal.
  lemma FinalizeAnswers(log: Log, operationId: string, status: Status, receipt: Receipt)
    requires Inv(log) && status != Pending
    ensures var (r, later) := Finalize(log, operationId, status, receipt);
      && (r == Err(OperationUnknown) <==> forall c | c in log.commands :: c.draft.operationId != operationId)
      && (r.Err? ==> r == Err(OperationUnknown) && later == log)
      && (forall c | c in log.commands && c.draft.operationId == operationId ::
            && r.Ok? && r.value.command in later.commands && r.value.highWaterMark == later.mark
            && r.value.command == if c.status == Pending then c.(status := status, receipt := Some(receipt)) else c)
      && (forall c | c in log.commands && c.draft.operationId != operationId :: c in later.commands)
      && (Named(log) ==> r.Ok? ==> r.value.highWaterMark == TerminalPrefix(later.commands))
  {
    var (r, later) := Finalize(log, operationId, status, receipt);
    FinalizeKeeps(log, operationId, status, receipt);
    if r.Ok? {
      var k := Find(log.commands, operationId).value;
      assert later.commands[k] == r.value.command;
      forall c | c in log.commands ensures c.draft.operationId == operationId ==> c == log.commands[k]
        ensures c.draft.operationId != operationId ==> c in later.commands
      {
        var i :| 0 <= i < |log.commands| && log.commands[i] == c;
        FindUnique(log, i);
        assert i != k ==> later.commands[i] == c;
      }
      if Named(log) {
        NamedLater(log, later);
        NamedMarkIsExact(later);
      }
    }
  }

  lemma NamedLater(log: Log, later: Log)
    requires Named(log) && Later(log, later) && |later.commands| == |log.commands|
    ensures Named(later)
  {
    forall c | c in later.commands ensures c.draft.operationId != "" {
      var i :| 0 <= i < |later.commands| && later.commands[i] == c;
      assert log.commands[i] in log.commands;
    }
  }

  /******* The pending list *******/

  ghost predicate Increasing(commands: seq<Command>) {
    forall i, j | 0 <= i < j < |commands| :: commands[i].sequence < commands[j].sequence
  }

  lemma TailMember(commands: seq<Command>, command: Command)
    requires Increasing(commands) && commands != []
    ensures Increasing(commands[1..])
    ensures command in commands[1..] <==> command in commands && command != commands[0]
  {
    assert forall i | 0 <= i < |commands| - 1 :: commands[1..][i] == commands[i + 1];
    if command in commands && command != commands[0] {
      var i :| 0 <= i < |commands| && commands[i] == command;
      assert commands[1..][i - 1] == command;
    }
  }

  lemma {:induction false} PendingOfIncreasing(commands: seq<Command>)
    requires Increasing(commands)
    ensures Increasing(PendingOf(commands))
    ensures forall command :: command in PendingOf(commands) <==> command in commands && !Terminal(command)
  {
    if commands != [] {
      var rest := commands[1..];
      TailMember(commands, commands[0]);
      PendingOfIncreasing(rest);
      Lists.FirstAndRest(commands);
      if !Terminal(commands[0]) {
        IncreasingFrom(commands[0], PendingOf(rest), commands);
      }
    }
  }

  lemma IncreasingFrom(first: Command, rest: seq<Command>, commands: seq<Command>)
    requires Increasing(rest) && Increasing(commands) && commands != [] && commands[0] == first
    requires forall command | command in rest :: command in commands[1..]
    ensures Increasing([first] + rest)
  {
    forall i | 0 <= i < |rest| ensures first.sequence < rest[i].sequence {
      assert rest[i] in commands[1..];
      var j :| 0 <= j < |commands[1..]| && commands[1..][j] == rest[i];
      assert commands[j + 1] == rest[i];
    }
  }

  // A list in sequence order is determined by its members.
  lemma {:induction false} IncreasingUnique(a: seq<Command>, b: seq<Command>)
    requires Increasing(a) && Increasing(b)
    requires forall command :: command in a <==> command in b
    ensures a == b
  {
    if a != [] || b != [] {
      assert a != [] ==> a[0] in b;
      assert b != [] ==> b[0] in a;
      var i :| 0 <= i < |b| && b[i] == a[0];
      var j :| 0 <= j < |a| && a[j] == b[0];
      assert a[0] == b[0];
      Lists.FirstAndRest(a);
      Lists.FirstAndRest(b);
      forall command ensures command in a[1..] <==> command in b[1..] {
        TailMember(a, command);
        TailMember(b, command);
      }
      IncreasingUnique(a[1..], b[1..]);
    }
  }
}
