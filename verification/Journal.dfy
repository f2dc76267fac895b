/** The journal on the raw string-keyed store. Every method is proved to do to the store
    what the specification does to the abstract log, and to leave keys outside the
    journal's namespace alone: the same storage holds the checkpoint pointers. */
module Journal {
  import opened Wrappers
  import opened JournalSpec
  import Decimal

  const NAMESPACE := "journal:"
  const COMMAND_PREFIX := "journal:command:"
  const SEQUENCE_PREFIX := "journal:sequence:"
  const NEXT_SEQUENCE_KEY := "journal:next-sequence"
  const HIGH_WATER_MARK_KEY := "journal:high-water-mark"

  datatype Entry =
    | CommandEntry(command: Command)
    | NameEntry(name: string)
    | NumberEntry(number: nat)
    | ForeignEntry(content: string)

  type Entries = map<string, Entry>

  function CommandKey(operationId: string): string { COMMAND_PREFIX + operationId }

  function SequenceKey(sequence: nat): string { SEQUENCE_PREFIX + Decimal.Print(sequence) }

  function GetNumber(entries: Entries, key: string): nat {
    if key in entries && entries[key].NumberEntry? then entries[key].number else 0
  }

  function GetName(entries: Entries, key: string): Option<string> {
    if key in entries && entries[key].NameEntry? then Some(entries[key].name) else None
  }

  function GetCommand(entries: Entries, key: string): Option<Command> {
    if key in entries && entries[key].CommandEntry? then Some(entries[key].command) else None
  }

  predicate Own(key: string) { NAMESPACE <= key }

  // A key layout. The classes below work with any layout whose families are apart.
  datatype Keys = Keys(commandPrefix: string, command: string -> string, sequence: nat -> string,
                       next: string, mark: string, own: string -> bool)

  // The layout in use.
  function Layout(): Keys {
    Keys(COMMAND_PREFIX, CommandKey, SequenceKey, NEXT_SEQUENCE_KEY, HIGH_WATER_MARK_KEY, Own)
  }

  // The four key families are injective, never meet and lie in the journal's namespace; only command keys
  // start with the command prefix.
  ghost predicate Apart(keys: Keys) {
    && (forall a, b {:trigger keys.command(a), keys.command(b)} :: keys.command(a) == keys.command(b) ==> a == b)
    && (forall m: nat, n: nat {:trigger keys.sequence(m), keys.sequence(n)} ::
          keys.sequence(m) == keys.sequence(n) ==> m == n)
    && (forall a, m: nat {:trigger keys.command(a), keys.sequence(m)} :: keys.command(a) != keys.sequence(m))
    && (forall a {:trigger keys.command(a)} :: keys.command(a) != keys.next && keys.command(a) != keys.mark)
    && (forall a {:trigger keys.own(keys.command(a))} :: keys.own(keys.command(a)))
    && (forall m: nat {:trigger keys.sequence(m)} :: keys.sequence(m) != keys.next && keys.sequence(m) != keys.mark)
    && (forall m: nat {:trigger keys.own(keys.sequence(m))} :: keys.own(keys.sequence(m)))
    && keys.next != keys.mark && keys.own(keys.next) && keys.own(keys.mark)
    && (forall a {:trigger keys.command(a)} :: keys.commandPrefix <= keys.command(a))
    && (forall m: nat {:trigger keys.sequence(m)} :: !(keys.commandPrefix <= keys.sequence(m)))
    && !(keys.commandPrefix <= keys.next) && !(keys.commandPrefix <= keys.mark)
    && (forall key {:trigger keys.own(key)} :: keys.commandPrefix <= key ==> keys.own(key))
  }

  lemma KeysApart(a: string, b: string, m: nat, n: nat)
    ensures CommandKey(a) == CommandKey(b) ==> a == b
    ensures SequenceKey(m) == SequenceKey(n) ==> m == n
    ensures CommandKey(a) != SequenceKey(m)
    ensures {NEXT_SEQUENCE_KEY, HIGH_WATER_MARK_KEY} !! {CommandKey(a), SequenceKey(m)}
    ensures NEXT_SEQUENCE_KEY != HIGH_WATER_MARK_KEY
    ensures Own(CommandKey(a)) && Own(SequenceKey(m)) && Own(NEXT_SEQUENCE_KEY) && Own(HIGH_WATER_MARK_KEY)
    ensures COMMAND_PREFIX <= CommandKey(a)
    ensures !(COMMAND_PREFIX <= SequenceKey(m))
    ensures !(COMMAND_PREFIX <= NEXT_SEQUENCE_KEY) && !(COMMAND_PREFIX <= HIGH_WATER_MARK_KEY)
    ensures COMMAND_PREFIX <= b ==> Own(b)
  {
    assert COMMAND_PREFIX[8] == 'c';
    assert CommandKey(a)[8] == 'c' && SequenceKey(m)[8] == 's';
    assert NEXT_SEQUENCE_KEY[8] == 'n' && HIGH_WATER_MARK_KEY[8] == 'h';
    assert CommandKey(a)[|COMMAND_PREFIX|..] == a && CommandKey(b)[|COMMAND_PREFIX|..] == b;
    assert SequenceKey(m)[|SEQUENCE_PREFIX|..] == Decimal.Print(m);
    assert SequenceKey(n)[|SEQUENCE_PREFIX|..] == Decimal.Print(n);
    Decimal.PrintInjective(m, n);
  }

  lemma LayoutApart()
    ensures Apart(Layout())
  {
    var keys := Layout();
    forall a, b ensures keys.command(a) == keys.command(b) ==> a == b { KeysApart(a, b, 0, 0); }
    forall m: nat, n: nat ensures keys.sequence(m) == keys.sequence(n) ==> m == n { KeysApart([], [], m, n); }
    forall a, m: nat ensures keys.command(a) != keys.sequence(m) { KeysApart(a, [], m, 0); }
    forall a
      ensures keys.command(a) != keys.next && keys.command(a) != keys.mark && keys.own(keys.command(a))
      ensures keys.commandPrefix <= keys.command(a)
    {
      KeysApart(a, [], 0, 0);
    }
    forall m: nat
      ensures keys.sequence(m) != keys.next && keys.sequence(m) != keys.mark && keys.own(keys.sequence(m))
      ensures !(keys.commandPrefix <= keys.sequence(m))
    {
      KeysApart([], [], m, 0);
    }
    forall key ensures keys.commandPrefix <= key ==> keys.own(key) { KeysApart([], key, 0, 0); }
    KeysApart([], [], 0, 0);
  }

  ghost predicate KnownKey(keys: Keys, key: string, log: Log) {
    || key == keys.next
    || key == keys.mark
    || (exists i :: 0 <= i < |log.commands| && key == keys.command(log.commands[i].draft.operationId))
    || (exists sequence: nat :: 1 <= sequence <= |log.commands| && key == keys.sequence(sequence))
  }

  // The store holds this journal and, inside the journal's namespace, nothing else.
  ghost predicate Represents(keys: Keys, entries: Entries, log: Log) {
    && (forall i | 0 <= i < |log.commands| ::
          GetCommand(entries, keys.command(log.commands[i].draft.operationId)) == Some(log.commands[i]))
    && (forall i | 0 <= i < |log.commands| ::
          GetName(entries, keys.sequence(i + 1)) == Some(log.commands[i].draft.operationId))
    && GetNumber(entries, keys.next) == |log.commands|
    && GetNumber(entries, keys.mark) == log.mark
    && (forall key {:trigger KnownKey(keys, key, log)} | key in entries && keys.own(key) :: KnownKey(keys, key, log))
  }

  // The keys spelled out.
  lemma StoreLayout(entries: Entries, log: Log)
    requires Represents(Layout(), entries, log)
    ensures GetNumber(entries, "journal:next-sequence") == |log.commands|
    ensures GetNumber(entries, "journal:high-water-mark") == log.mark
    ensures forall i | 0 <= i < |log.commands| ::
      var id := log.commands[i].draft.operationId;
      && GetCommand(entries, "journal:command:" + id) == Some(log.commands[i])
      && GetName(entries, "journal:sequence:" + Decimal.Print(i + 1)) == Some(id)
  {
    var keys := Layout();
    forall i | 0 <= i < |log.commands|
      ensures GetCommand(entries, "journal:command:" + log.commands[i].draft.operationId) == Some(log.commands[i])
      ensures GetName(entries, "journal:sequence:" + Decimal.Print(i + 1)) == Some(log.commands[i].draft.operationId)
    {
      var id := log.commands[i].draft.operationId;
      assert GetCommand(entries, keys.command(id)) == Some(log.commands[i]);
      assert GetName(entries, keys.sequence(i + 1)) == Some(id);
    }
  }

  // One store holds one journal.
  lemma {:induction false} RepresentsUnique(keys: Keys, entries: Entries, a: Log, b: Log)
    requires Represents(keys, entries, a) && Represents(keys, entries, b)
    ensures a == b
  {
    assert |a.commands| == |b.commands|;
    forall i | 0 <= i < |a.commands| ensures a.commands[i] == b.commands[i] {
      assert GetName(entries, keys.sequence(i + 1)) == Some(a.commands[i].draft.operationId);
      assert GetName(entries, keys.sequence(i + 1)) == Some(b.commands[i].draft.operationId);
    }
  }

  lemma LookupAgrees(keys: Keys, entries: Entries, log: Log, operationId: string)
    requires Apart(keys) && Represents(keys, entries, log)
    ensures var found := Find(log.commands, operationId);
      GetCommand(entries, keys.command(operationId))
        == if found.Some? then Some(log.commands[found.value]) else None
  {
    var key := keys.command(operationId);
    if key in entries {
      assert KnownKey(keys, key, log);
      var i :| 0 <= i < |log.commands| && key == keys.command(log.commands[i].draft.operationId);
      assert log.commands[i] in log.commands;
    }
  }

  // What the scan reads for the sequence after the mark.
  lemma NextCommand(keys: Keys, entries: Entries, log: Log, mark: nat)
    requires Apart(keys) && Represents(keys, entries, log) && mark <= |log.commands|
    ensures mark == |log.commands| ==> GetName(entries, keys.sequence(mark + 1)) == None
    ensures mark < |log.commands| ==>
      && GetName(entries, keys.sequence(mark + 1)) == Some(log.commands[mark].draft.operationId)
      && GetCommand(entries, keys.command(log.commands[mark].draft.operationId)) == Some(log.commands[mark])
  {
    var key := keys.sequence(mark + 1);
    assert key in entries ==> KnownKey(keys, key, log);
  }

  ghost predicate SameOutside(keys: Keys, before: Entries, after: Entries) {
    forall key {:trigger keys.own(key)} | !keys.own(key) ::
      (key in before <==> key in after) && (key in before ==> before[key] == after[key])
  }

  /** The durable key-value store. */
  class Storage {
    const keys: Keys
    var entries: Entries
    ghost var log: Log

    ghost predicate Valid()
      reads this
    {
      Apart(keys) && Inv(log) && Represents(keys, entries, log)
    }

    constructor (keys: Keys)
      requires Apart(keys)
      ensures Valid() && this.keys == keys && log == EMPTY
    {
      this.keys := keys;
      entries := map[];
      log := EMPTY;
    }

    // The values under a prefix, in whatever order the store keeps them.
    method List(prefix: string) returns (listed: seq<Entry>, ghost keys: seq<string>)
      ensures IsListing(entries, prefix, listed, keys)
    {
      listed, keys := [], [];
      var rest := set key | key in entries && prefix <= key;
      while rest != {}
        invariant |keys| == |listed|
        invariant rest <= entries.Keys
        invariant forall i | 0 <= i < |keys| :: keys[i] in entries && listed[i] == entries[keys[i]]
        invariant forall i, j | 0 <= i < j < |keys| :: keys[i] != keys[j]
        invariant forall key | key in rest :: key !in keys
        invariant forall key :: key in rest || key in keys <==> key in entries && prefix <= key
        decreases rest
      {
        var key :| key in rest;
        rest := rest - {key};
        listed, keys := listed + [entries[key]], keys + [key];
      }
    }
  }

  function Commands(listed: seq<Entry>): seq<Command> {
    if listed == [] then []
    else if listed[0].CommandEntry? && !Terminal(listed[0].command) then [listed[0].command] + Commands(listed[1..])
    else Commands(listed[1..])
  }

  function Insert(command: Command, sorted: seq<Command>): seq<Command> {
    if sorted == [] || command.sequence <= sorted[0].sequence then [command] + sorted
    else [sorted[0]] + Insert(command, sorted[1..])
  }

  function SortBySequence(commands: seq<Command>): seq<Command> {
    if commands == [] then [] else Insert(commands[0], SortBySequence(commands[1..]))
  }

  lemma {:induction false} CommandsMembers(listed: seq<Entry>)
    ensures forall command :: command in Commands(listed) <==> !Terminal(command) && CommandEntry(command) in listed
  {
    if listed != [] {
      CommandsMembers(listed[1..]);
      assert listed == [listed[0]] + listed[1..];
    }
  }

  ghost predicate DistinctSequences(commands: seq<Command>) {
    forall i, j | 0 <= i < j < |commands| :: commands[i].sequence != commands[j].sequence
  }

  lemma {:induction false} CommandsDistinct(listed: seq<Entry>)
    requires forall i, j | 0 <= i < j < |listed| && listed[i].CommandEntry? && listed[j].CommandEntry? ::
      listed[i].command.sequence != listed[j].command.sequence
    ensures DistinctSequences(Commands(listed))
  {
    if listed != [] {
      CommandsDistinct(listed[1..]);
      CommandsMembers(listed[1..]);
      if listed[0].CommandEntry? {
        forall command | command in Commands(listed[1..]) ensures command.sequence != listed[0].command.sequence {
          var j :| 0 <= j < |listed[1..]| && listed[1..][j] == CommandEntry(command);
          assert listed[j + 1] == CommandEntry(command);
        }
      }
    }
  }

  lemma {:induction false} InsertSorts(command: Command, sorted: seq<Command>)
    requires Increasing(sorted)
    requires forall other | other in sorted :: other.sequence != command.sequence
    ensures Increasing(Insert(command, sorted))
    ensures forall other :: other in Insert(command, sorted) <==> other == command || other in sorted
  {
    if sorted != [] && command.sequence > sorted[0].sequence {
      InsertSorts(command, sorted[1..]);
      assert sorted == [sorted[0]] + sorted[1..];
      forall other | other in Insert(command, sorted[1..]) ensures sorted[0].sequence < other.sequence {
        if other in sorted[1..] {
          var j :| 0 <= j < |sorted[1..]| && sorted[1..][j] == other;
          assert sorted[j + 1] == other;
        }
      }
    }
  }

  lemma {:induction false} SortSorts(commands: seq<Command>)
    requires DistinctSequences(commands)
    ensures Increasing(SortBySequence(commands))
    ensures forall command :: command in SortBySequence(commands) <==> command in commands
  {
    if commands != [] {
      SortSorts(commands[1..]);
      assert commands == [commands[0]] + commands[1..];
      forall other | other in SortBySequence(commands[1..]) ensures other.sequence != commands[0].sequence {
        var j :| 0 <= j < |commands[1..]| && commands[1..][j] == other;
        assert commands[j + 1] == other;
      }
      InsertSorts(commands[0], SortBySequence(commands[1..]));
    }
  }

  // `keys` are the keys of `entries` under a prefix, each once, and `listed` their values.
  ghost predicate IsListing(entries: Entries, prefix: string, listed: seq<Entry>, keys: seq<string>) {
    && |keys| == |listed|
    && (forall i | 0 <= i < |keys| :: keys[i] in entries && listed[i] == entries[keys[i]])
    && (forall i, j | 0 <= i < j < |keys| :: keys[i] != keys[j])
    && (forall key :: key in keys <==> key in entries && prefix <= key)
  }

  ghost predicate ListedCommand(keys: Keys, log: Log, entry: Entry, name: string) {
    exists i :: 0 <= i < |log.commands| && name == keys.command(log.commands[i].draft.operationId)
                && entry == CommandEntry(log.commands[i])
  }

  lemma ListedAt(keys: Keys, entries: Entries, log: Log, listed: seq<Entry>, names: seq<string>, k: nat)
    requires Apart(keys) && Represents(keys, entries, log)
    requires IsListing(entries, keys.commandPrefix, listed, names) && k < |listed|
    ensures ListedCommand(keys, log, listed[k], names[k])
  {
    assert names[k] in names;
    assert keys.own(names[k]);
    assert KnownKey(keys, names[k], log);
  }

  lemma ListedAreCommands(keys: Keys, entries: Entries, log: Log, listed: seq<Entry>, names: seq<string>)
    requires Apart(keys) && Represents(keys, entries, log) && Shape(log)
    requires IsListing(entries, keys.commandPrefix, listed, names)
    ensures forall c :: c in log.commands <==> CommandEntry(c) in listed
    ensures forall i, j | 0 <= i < j < |listed| && listed[i].CommandEntry? && listed[j].CommandEntry? ::
      listed[i].command.sequence != listed[j].command.sequence
  {
    forall k | 0 <= k < |listed| ensures ListedCommand(keys, log, listed[k], names[k]) {
      ListedAt(keys, entries, log, listed, names, k);
    }
    forall c | c in log.commands ensures CommandEntry(c) in listed {
      var i :| 0 <= i < |log.commands| && log.commands[i] == c;
      assert keys.command(c.draft.operationId) in names;
      var k :| 0 <= k < |names| && names[k] == keys.command(c.draft.operationId);
      assert listed[k] == CommandEntry(c);
    }
  }

  lemma SortedListing(log: Log, listed: seq<Entry>)
    requires Shape(log)
    requires forall c :: c in log.commands <==> CommandEntry(c) in listed
    requires forall i, j | 0 <= i < j < |listed| && listed[i].CommandEntry? && listed[j].CommandEntry? ::
      listed[i].command.sequence != listed[j].command.sequence
    ensures SortBySequence(Commands(listed)) == PendingOf(log.commands)
  {
    CommandsMembers(listed);
    CommandsDistinct(listed);
    SortSorts(Commands(listed));
    assert Increasing(log.commands);
    PendingOfIncreasing(log.commands);
    IncreasingUnique(SortBySequence(Commands(listed)), PendingOf(log.commands));
  }

  // Whatever order the store lists its keys in, sorting gives the journal's pending commands.
  lemma PendingFromListing(keys: Keys, entries: Entries, log: Log, listed: seq<Entry>, names: seq<string>)
    requires Apart(keys) && Represents(keys, entries, log) && Shape(log)
    requires IsListing(entries, keys.commandPrefix, listed, names)
    ensures SortBySequence(Commands(listed)) == PendingOf(log.commands)
  {
    ListedAreCommands(keys, entries, log, listed, names);
    SortedListing(log, listed);
  }

  /** The journal of one tenant. */
  class TenantJournal {
    const storage: Storage
    const tenantId: string

    constructor (storage: Storage, tenantId: string)
      ensures this.storage == storage && this.tenantId == tenantId
    {
      this.storage := storage;
      this.tenantId := tenantId;
    }

    method Prepare(draft: Draft) returns (r: Result<Prepared, Failure>)
      requires storage.Valid()
      modifies storage
      ensures storage.Valid()
      ensures (r, storage.log) == JournalSpec.Prepare(old(storage.log), tenantId, draft)
      ensures SameOutside(storage.keys, old(storage.entries), storage.entries)
    {
      if draft.tenantId != tenantId {
        return Err(TenantMismatch);
      }
      var key := storage.keys.command(draft.operationId);
      var existing := GetCommand(storage.entries, key);
      LookupAgrees(storage.keys, storage.entries, storage.log, draft.operationId);
      if existing.Some? {
        if !SameFingerprint(existing.value.draft, draft) {
          return Err(OperationConflict);
        }
        return Ok(Prepared(existing.value, true));
      }
      var nextSequence := GetNumber(storage.entries, storage.keys.next) + 1;
      var record := Command(draft, nextSequence, Status.Pending, None);
      ghost var before := storage.entries;
      storage.entries := storage.entries[key := CommandEntry(record)];
      storage.entries := storage.entries[storage.keys.sequence(nextSequence) := NameEntry(draft.operationId)];
      storage.entries := storage.entries[storage.keys.next := NumberEntry(nextSequence)];
      PrepareKeeps(storage.log, tenantId, draft);
      Appended(storage.keys, before, storage.log, record);
      storage.log := storage.log.(commands := storage.log.commands + [record]);
      return Ok(Prepared(record, false));
    }

    method Get(operationId: string) returns (r: Option<Command>)
      requires storage.Valid()
      ensures var found := Find(storage.log.commands, operationId);
        r == if found.Some? then Some(storage.log.commands[found.value]) else None
    {
      LookupAgrees(storage.keys, storage.entries, storage.log, operationId);
      r := GetCommand(storage.entries, storage.keys.command(operationId));
    }

    method Pending() returns (commands: seq<Command>)
      requires storage.Valid()
      ensures commands == PendingOf(storage.log.commands)
    {
      var listed, keys := storage.List(storage.keys.commandPrefix);
      PendingFromListing(storage.keys, storage.entries, storage.log, listed, keys);
      commands := SortBySequence(Commands(listed));
    }

    method Finalize(operationId: string, status: Status, receipt: Receipt) returns (r: Result<Finalized, Failure>)
      requires storage.Valid() && status != Status.Pending
      modifies storage
      ensures storage.Valid()
      ensures (r, storage.log) == JournalSpec.Finalize(old(storage.log), operationId, status, receipt)
      ensures SameOutside(storage.keys, old(storage.entries), storage.entries)
    {
      var key := storage.keys.command(operationId);
      var command := GetCommand(storage.entries, key);
      LookupAgrees(storage.keys, storage.entries, storage.log, operationId);
      if command.None? {
        return Err(OperationUnknown);
      }
      if Terminal(command.value) {
        return Ok(Finalized(command.value, GetNumber(storage.entries, storage.keys.mark)));
      }
      FinalizeKeeps(storage.log, operationId, status, receipt);
      var finalized := command.value.(status := status, receipt := Some(receipt));
      PutOutcome(finalized, status, receipt, Find(storage.log.commands, operationId).value);
      var mark := AdvanceHighWaterMark();
      return Ok(Finalized(finalized, mark));
    }

    method PutOutcome(finalized: Command, status: Status, receipt: Receipt, ghost i: nat)
      requires storage.Valid() && i < |storage.log.commands| && status != Status.Pending
      requires finalized == Settle(storage.log, i, status, receipt).commands[i]
      modifies storage
      ensures Apart(storage.keys) && Shape(storage.log) && storage.log == Settle(old(storage.log), i, status, receipt)
      ensures Represents(storage.keys, storage.entries, storage.log)
      ensures SameOutside(storage.keys, old(storage.entries), storage.entries)
    {
      Replaced(storage.keys, storage.entries, storage.log, i, status, receipt);
      storage.entries := storage.entries[storage.keys.command(finalized.draft.operationId) := CommandEntry(finalized)];
      storage.log := Settle(storage.log, i, status, receipt);
    }

    method HighWaterMark() returns (mark: nat)
      requires storage.Valid()
      ensures mark == storage.log.mark
    {
      mark := GetNumber(storage.entries, storage.keys.mark);
    }

    // The loop that reads its way forward from the mark inside one transaction.
    static method ScanStore(keys: Keys, entries: Entries, ghost log: Log, start: nat) returns (mark: nat)
      requires Apart(keys) && Represents(keys, entries, log) && start <= |log.commands|
      ensures mark == Scan(log.commands, start)
    {
      mark := start;
      while true
        invariant mark <= |log.commands|
        invariant Scan(log.commands, mark) == Scan(log.commands, start)
        decreases |log.commands| - mark
      {
        var nextSequence := mark + 1;
        NextCommand(keys, entries, log, mark);
        var operationId := GetName(entries, keys.sequence(nextSequence));
        if operationId.None? || operationId.value == "" {
          break;
        }
        var command := GetCommand(entries, keys.command(operationId.value));
        if command.None? || !Terminal(command.value) {
          break;
        }
        mark := nextSequence;
      }
    }

    method AdvanceHighWaterMark() returns (mark: nat)
      requires Apart(storage.keys) && Represents(storage.keys, storage.entries, storage.log) && Shape(storage.log)
      modifies storage
      ensures mark == Scan(old(storage.log.commands), old(storage.log.mark))
      ensures storage.log == old(storage.log).(mark := mark)
      ensures Represents(storage.keys, storage.entries, storage.log)
      ensures SameOutside(storage.keys, old(storage.entries), storage.entries)
    {
      mark := GetNumber(storage.entries, storage.keys.mark);
      mark := ScanStore(storage.keys, storage.entries, storage.log, mark);
      Marked(storage.keys, storage.entries, storage.log, mark);
      storage.entries := storage.entries[storage.keys.mark := NumberEntry(mark)];
      storage.log := storage.log.(mark := mark);
    }
  }

  /******* What each put does to the represented journal *******/

  function Added(keys: Keys, entries: Entries, record: Command): Entries {
    entries[keys.command(record.draft.operationId) := CommandEntry(record)]
    [keys.sequence(record.sequence) := NameEntry(record.draft.operationId)]
    [keys.next := NumberEntry(record.sequence)]
  }

  lemma AddedLookup(keys: Keys, entries: Entries, record: Command, key: string)
    requires Apart(keys)
    ensures var after := Added(keys, entries, record);
      && after.Keys ==
           entries.Keys + {keys.command(record.draft.operationId), keys.sequence(record.sequence), keys.next}
      && after[keys.command(record.draft.operationId)] == CommandEntry(record)
      && after[keys.sequence(record.sequence)] == NameEntry(record.draft.operationId)
      && after[keys.next] == NumberEntry(record.sequence)
    ensures key !in {keys.command(record.draft.operationId), keys.sequence(record.sequence), keys.next} ==>
      var after := Added(keys, entries, record);
      (key in after <==> key in entries) && (key in after ==> after[key] == entries[key])
  {
  }

  lemma Appended(keys: Keys, entries: Entries, log: Log, record: Command)
    requires Apart(keys) && Represents(keys, entries, log)
    requires Find(log.commands, record.draft.operationId).None? && record.sequence == |log.commands| + 1
    ensures Represents(keys, Added(keys, entries, record), log.(commands := log.commands + [record]))
    ensures SameOutside(keys, entries, Added(keys, entries, record))
  {
    var after := Added(keys, entries, record);
    var later := log.(commands := log.commands + [record]);
    forall i | 0 <= i < |later.commands|
      ensures GetCommand(after, keys.command(later.commands[i].draft.operationId)) == Some(later.commands[i])
      ensures GetName(after, keys.sequence(i + 1)) == Some(later.commands[i].draft.operationId)
    {
      AddedAt(keys, entries, log, record, i);
    }
    forall key | key in after && keys.own(key) ensures KnownKey(keys, key, later) {
      AddedKnown(keys, entries, log, record, key);
    }
    AddedLookup(keys, entries, record, keys.mark);
    AddedOutside(keys, entries, record);
  }

  lemma AddedAt(keys: Keys, entries: Entries, log: Log, record: Command, i: nat)
    requires Apart(keys) && Represents(keys, entries, log) && i <= |log.commands|
    requires Find(log.commands, record.draft.operationId).None? && record.sequence == |log.commands| + 1
    ensures var (after, command) := (Added(keys, entries, record), (log.commands + [record])[i]);
      && GetCommand(after, keys.command(command.draft.operationId)) == Some(command)
      && GetName(after, keys.sequence(i + 1)) == Some(command.draft.operationId)
  {
    if i < |log.commands| {
      AddedKeeps(keys, entries, log, record, i);
    } else {
      AddedLookup(keys, entries, record, keys.next);
    }
  }

  lemma AddedOutside(keys: Keys, entries: Entries, record: Command)
    requires Apart(keys)
    ensures SameOutside(keys, entries, Added(keys, entries, record))
  {
    assert keys.own(keys.command(record.draft.operationId)) && keys.own(keys.sequence(record.sequence));
  }

  lemma AddedKeeps(keys: Keys, entries: Entries, log: Log, record: Command, i: nat)
    requires Apart(keys) && Represents(keys, entries, log) && i < |log.commands|
    requires Find(log.commands, record.draft.operationId).None? && record.sequence == |log.commands| + 1
    ensures var after := Added(keys, entries, record);
      && GetCommand(after, keys.command(log.commands[i].draft.operationId)) == Some(log.commands[i])
      && GetName(after, keys.sequence(i + 1)) == Some(log.commands[i].draft.operationId)
  {
    assert log.commands[i] in log.commands;
    AddedLookup(keys, entries, record, keys.command(log.commands[i].draft.operationId));
    AddedLookup(keys, entries, record, keys.sequence(i + 1));
    assert GetName(entries, keys.sequence(i + 1)) == Some(log.commands[i].draft.operationId);
  }

  lemma AddedKnown(keys: Keys, entries: Entries, log: Log, record: Command, key: string)
    requires Apart(keys) && Represents(keys, entries, log) && record.sequence == |log.commands| + 1
    requires key in Added(keys, entries, record) && keys.own(key)
    ensures KnownKey(keys, key, log.(commands := log.commands + [record]))
  {
    var later := log.(commands := log.commands + [record]);
    AddedLookup(keys, entries, record, key);
    if key == keys.command(record.draft.operationId) || key == keys.sequence(record.sequence) {
      assert later.commands[|log.commands|] == record;
    } else if key != keys.next {
      assert KnownKey(keys, key, log);
      if i :| 0 <= i < |log.commands| && key == keys.command(log.commands[i].draft.operationId) {
        assert later.commands[i] == log.commands[i];
      }
    }
  }

  lemma Replaced(keys: Keys, entries: Entries, log: Log, i: nat, status: Status, receipt: Receipt)
    requires Apart(keys) && Represents(keys, entries, log) && Shape(log) && i < |log.commands|
    ensures
      var settled := Settle(log, i, status, receipt);
      var after := entries[keys.command(log.commands[i].draft.operationId) := CommandEntry(settled.commands[i])];
      Represents(keys, after, settled) && SameOutside(keys, entries, after)
  {
    var settled := Settle(log, i, status, receipt);
    var after := entries[keys.command(log.commands[i].draft.operationId) := CommandEntry(settled.commands[i])];
    forall j | 0 <= j < |settled.commands|
      ensures GetCommand(after, keys.command(settled.commands[j].draft.operationId)) == Some(settled.commands[j])
      ensures GetName(after, keys.sequence(j + 1)) == Some(settled.commands[j].draft.operationId)
    {
      assert settled.commands[j].draft == log.commands[j].draft;
      assert GetName(entries, keys.sequence(j + 1)) == Some(log.commands[j].draft.operationId);
    }
    forall key | key in after && keys.own(key) ensures KnownKey(keys, key, settled) {
      assert key in entries;
      assert KnownKey(keys, key, log);
      if j :| 0 <= j < |log.commands| && key == keys.command(log.commands[j].draft.operationId) {
        assert settled.commands[j].draft == log.commands[j].draft;
      }
    }
  }

  lemma Marked(keys: Keys, entries: Entries, log: Log, mark: nat)
    requires Apart(keys) && Represents(keys, entries, log)
    ensures Represents(keys, entries[keys.mark := NumberEntry(mark)], log.(mark := mark))
    ensures SameOutside(keys, entries, entries[keys.mark := NumberEntry(mark)])
  {
    var after, later := entries[keys.mark := NumberEntry(mark)], log.(mark := mark);
    forall i | 0 <= i < |log.commands|
      ensures GetName(after, keys.sequence(i + 1)) == Some(log.commands[i].draft.operationId)
    {
      assert GetName(entries, keys.sequence(i + 1)) == Some(log.commands[i].draft.operationId);
    }
    forall key | key in after && keys.own(key) ensures KnownKey(keys, key, later) {
      assert key == keys.mark || KnownKey(keys, key, log);
    }
  }
}
