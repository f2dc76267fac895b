# Celiums: verified models

Dafny models of the parts of Celiums whose correctness is not visible in any single function, with proofs of
what they promise. The centre is the durable command journal of the Cloudflare tenant runtime: a request is
journaled before the container sees it, its outcome is recorded before the caller sees it, and pending commands
are replayed after a failure. Around it stand self-contained algorithms of the federation package, the memory
engine, the MCP command line and the cognition crate.

`dafny verify dfyconfig.toml` checks everything. One file holds one component:

- `JournalSpec` is the abstract journal, an append-only list of commands with a mark. `Journal` is the raw
  string-keyed store and the class that works on it; every method is proved to do to the store what the abstract
  journal does, and to leave other keys alone.
- `Runtime` is the tenant runtime as a transition system. A step is what one process does between two awaits;
  processes interleave freely, and each may die before any step. `Guarantees` holds what is true of every run,
  `Replays` what one replay achieves while requests, other replays and crashes go on around it, `Leftovers` which
  staged bodies are never deleted. `Worker` is the same runtime as methods; a ghost trace ties each await to a step, so
  that every run of the methods is a run of the transition system, and what that guarantees holds down to the raw store.
- `Checkpoint` is the publication of checkpoints, stopped after any number of writes.
- `Claim`, `Dedup`, `Rrf`, `Uri`, `Framing`, `Confirm`, `Redaction`, `Luhn`, `Rhythm`, `Breaker`, `Gate` and
  `Tail` model one algorithm each. `Sorting` and `Prelude` (facts about lists, decimal numbers, UTF-8, where its
  characters start, percent-encoding, cutting at separators) are shared.

The container is assumed to answer a repeated operation id with its first response and to do nothing more; this
is what the header `x-celiums-operation-id` asks of it. Digests are assumed free of collisions.

## Where the code does not do what one may expect

Each of these is proved, with the exact condition under which the code is right:

- A journal that gets a command under the empty operation id never moves its mark past it
  (`JournalSpec.MarkIsTerminalPrefix`, `JournalSpec.EmptyIdStopsTheMark`). The runtime refuses such ids, so its
  own journals are exact (`Guarantees.MarkIsExact`).
- Replays are not serialised with requests or with each other. A replay answers 503 `checkpoint_missing` and gives up
  at a binary command that another process has finalized and cleaned up since, with later commands still pending and
  the mark past the command it stopped at (`Replays.StuckExactly`, `Replays.StoppedExactly`,
  `Replays.StopsAtFinalizedCommand`). A binary request can meet the same answer after its own upload, but then its
  receipt is stored (`Replays.UploadGoneExactly`).
- The body of a binary command stays in the bucket for good if the last process that would have deleted it dies after
  the command has its outcome, or is a replay that stops at an earlier command: replays visit pending commands alone
  (`Leftovers.AbandonedExactly`, `Leftovers.AbandonedForGood`).
- A replayed binary request loses the search part of its URL, and a replayed text request its content type: the
  journal gets neither (`Guarantees.ReplayRepeatsRequest`).
- Publishing a checkpoint that a full list holds already deletes an artifact that is still listed, or the active
  one: the filter takes the repeated id out of the list, but what expires is cut from the unfiltered list
  (`Checkpoint.LiveExactly`, `Checkpoint.ActiveLostExactly`, `Checkpoint.RepublishingLoses`). Over a whole run this is
  the only way to lose one (`Checkpoint.AlwaysLiveExactly`); the retry of an export that died meets it exactly if the
  list was written already and was all but full before (`Checkpoint.RetryExactly`).
- Two copies of a paper with one DOI may end up in two records, if the first was merged by title into a record
  with another DOI (`Dedup.IndexedExactly`, `Dedup.EscapeSplits`).
- Detected spans that overlap without nesting can leave the tail of a dropped span in the text: they do exactly when a
  span runs on past the end of a kept one and no detected span begins there (`Redaction.CoverageExactly`; in terms of
  the detected spans alone, `Redaction.CoverageOfTiles`), which for two spans is every partial overlap
  (`Redaction.TwoSpansExactly`).
- The comment at `packages/federation/src/lib/http.ts:15` speaks of a single probe. An open breaker lets through
  exactly the calls that ask 30 s or more after it opened, until one reports (`Breaker.ProbesExactly`,
  `Breaker.ProbesUnlimited`): one probe if one such call asks, as when calls come one at a time
  (`Breaker.OneProbe`), and any number otherwise.
- A structural match that would block is dropped if an earlier match of the same pattern has the same first 40
  characters; with the present tables this costs a block for one pattern only (`Gate.LostBlocksAreForcedAction`).
- A validity interval without a start that ends at the first representable instant is reported to overlap
  (`Claim.OverlapExactly`).

## Model

| member | source | states |
|---|---|---|
| Guarantees.AcknowledgedExactlyOnce | apps/cloudflare-worker/src/runtime.ts:52-82 | in every run with any crashes and replays, a reply with a receipt is backed by a terminal record of that very request with that receipt, and the operation took effect exactly once, with the recorded content |
| Guarantees.AcknowledgedForGood | apps/cloudflare-worker/src/journal.ts:118-137 | whatever happens after a reply, the record behind it stays as it is |
| Guarantees.OneAnswer | apps/cloudflare-worker/src/runtime.ts:64-68 | two replies for one operation id carry the same receipt and answer the same request |
| Guarantees.EffectsAreJournaled | apps/cloudflare-worker/src/runtime.ts:53-70 | no operation takes effect twice, and none before the journal has it |
| Guarantees.RetryServedFromRecord | apps/cloudflare-worker/src/runtime.ts:64-68 | a request whose operation is terminal gets the stored receipt; journal, objects and container are not touched |
| Guarantees.ReuseChangesNothing | apps/cloudflare-worker/src/journal.ts:82-91 | a request that reuses an id with other content ends its own process and changes nothing else |
| Guarantees.MessagesAgree | apps/cloudflare-worker/src/index.ts:132-145 | all messages the container ever gets for one operation agree in everything but the search part of a binary request and the content type |
| Guarantees.MarkIsExact | apps/cloudflare-worker/src/journal.ts:148-163 | in every reachable world the sequences are 1..n, the ids are distinct, and the mark is the length of the gapless terminal prefix, so it equals n exactly when nothing is pending |
| Guarantees.StagedBodyExists | apps/cloudflare-worker/src/runtime.ts:119-129 | once uploaded, the body of a still pending binary command exists in every reachable world and has the journaled digest |
| Guarantees.TerminalMeansAnswered | apps/cloudflare-worker/src/runtime.ts:70-76 | a terminal record has the container's own response as receipt, and is applied exactly for a status from 200 to 299 |
| Replays.ReplayInOrder | apps/cloudflare-worker/src/index.ts:125-155 | whatever runs beside it, one replay sends the container the commands that were pending when it started, each once and with its journaled body, in strictly increasing sequence without a gap |
| Replays.ReplayCompletes | apps/cloudflare-worker/src/index.ts:125-156 | whatever runs beside it, once a replay has come to its end everything journaled before it started is terminal and under the mark; if nothing was prepared meanwhile, nothing is pending and the mark is the last sequence |
| Replays.ReplayPosition | apps/cloudflare-worker/src/index.ts:125-155 | while a replay is at some command, everything before that command is terminal, and the mark is just before it if and only if the command is still pending |
| Replays.ReplayRest | apps/cloudflare-worker/src/index.ts:125-155 | if nothing was prepared meanwhile, the pending commands are exactly those the replay has not dealt with, if and only if no other process has finalized any of these |
| Replays.ReplayEnds | apps/cloudflare-worker/src/index.ts:125-156 | whatever runs beside it, a replay that does not stop has dealt with one command after every four steps of its own, and has come to its end after four for each command that was pending |
| Replays.StuckExactly | apps/cloudflare-worker/src/index.ts:128-131 | in every reachable world a replay stops at a command if and only if it is about to load a binary body that was never uploaded, or one that is gone because its command has been finalized |
| Replays.StoppedExactly | apps/cloudflare-worker/src/index.ts:128-131 | a stopped replay has left nothing pending before the command it stopped at; the mark is just before that command if and only if its body was never uploaded, and otherwise past it |
| Replays.StopsAtFinalizedCommand | apps/cloudflare-worker/src/index.ts:120-157 | for any two such requests a reachable world where, of two replays, one has finished a binary command and the other stops at it, with the next command pending |
| Replays.UploadGoneExactly | apps/cloudflare-worker/src/runtime.ts:118-120 | a request finds its own upload gone only if its operation has been brought to an end meanwhile, with a stored receipt |
| Leftovers.AbandonedExactly | apps/cloudflare-worker/src/runtime.ts:122-129 | over all histories, a body stays behind a terminal command with nobody left to delete it if and only if at some step the last process that would have deleted it died or, as a replay, stopped |
| Leftovers.AbandonedForGood | apps/cloudflare-worker/src/index.ts:152-153 | and then no later request, retry or replay deletes it |
| Leftovers.StepAbandons | apps/cloudflare-worker/src/index.ts:152-153 | the same for each single step of each process |
| Leftovers.ObjectsAreBodies | apps/cloudflare-worker/src/runtime.ts:102-118 | in every reachable world every object is the body of a journaled binary command of the tenant, under its own key and with the journaled digest |
| Runtime.StepSafe | apps/cloudflare-worker/src/index.ts:41-42 | the global invariant is kept by every step of every process, with replays not serialised with requests |
| Runtime.BodyRefInjective | apps/cloudflare-worker/src/runtime.ts:102 | staged objects of different tenants or operations never share a key |
| Worker.TenantRuntime.ForwardWithJournal | apps/cloudflare-worker/src/runtime.ts:23-83 | every run of the method is a run of the transition system. In terms of the request: which ones pass through unjournaled, which are refused and how; a conflict exactly for a known id with another fingerprint; the stored receipt exactly for one that has one; of every other, by what befalls the call (loss before or after the container has it, hook, store) alone, whether it fails, is answered 503 or gets the container's answer. One that is not answered is still pending |
| Worker.TenantRuntime.ForwardBinaryWithJournal | apps/cloudflare-worker/src/runtime.ts:85-131 | the same for binary requests, a replay that overtakes the request between upload and reading back included: only this request's object is touched, it is there after a lost request and gone after an answered one; the 503 for a body that cannot be read back comes exactly if such a replay has finalized the command, and then the object is gone and the receipt stored |
| Worker.TenantRuntime.ReplayPending | apps/cloudflare-worker/src/index.ts:120-157 | the replay as a loop that nothing interleaves with: pending commands are sent in increasing sequence; a run that meets no obstacle leaves none pending and the mark at the end; any other has finalized exactly a prefix, the mark is just before the command it stopped at, and it stopped there because that command's body is missing or the container was lost at it, and at none before. The interleaved form is that of `Replays` |
| Worker.Deploy | apps/cloudflare-worker/src/journal.ts:165-171 | a runtime on an empty store with the keys and object names the code uses starts in the initial world of its tenant |
| Worker.RuntimeReached | apps/cloudflare-worker/src/runtime.ts:52-82 | whatever the methods did to such a runtime, it is in a world the transition system reaches, and its raw store is the journal of that world |
| Worker.AcknowledgedInStore | apps/cloudflare-worker/src/runtime.ts:52-82 | exactly-once acknowledgement down to the raw store: the receipt of every reply stands under `journal:command:` and the operation id, in the terminal record of that request, and the operation took effect once |
| Worker.FinalizeFirst | apps/cloudflare-worker/src/journal.ts:118-137 | finalizing the oldest pending command removes it from the pending list and nothing else |
| Guarantees.FingerprintExactly | apps/cloudflare-worker/src/journal.ts:82-89 | two requests under one id count as the same if and only if they agree in kind, verb, path, body and session; times are recorded and do not matter |
| Guarantees.ReplayRepeatsRequest | apps/cloudflare-worker/src/runtime.ts:52-114 | a replay sends what the request sent if and only if a binary request has no search part, a text request no content type |
| Runtime.AdmitExactly | apps/cloudflare-worker/src/runtime.ts:29-50 | which requests are journaled, in terms of their fields |
| Runtime.DecisionExactly | apps/cloudflare-worker/src/runtime.ts:29-50 | which requests pass through, and each refusal if and only if its own reason holds and no earlier guard does |
| JournalSpec.PrepareKeeps | apps/cloudflare-worker/src/journal.ts:73-106 | prepare keeps the invariant (sequences 1..n, one record per id, receipts exactly on terminal records, a maximal mark) and what was recorded before |
| JournalSpec.FinalizeKeeps | apps/cloudflare-worker/src/journal.ts:118-137 | finalize keeps the invariant and what was recorded before; terminal records stay and the mark never goes back |
| JournalSpec.PrepareAnswers | apps/cloudflare-worker/src/journal.ts:73-106 | every answer of prepare: a new id gets the next sequence and waits, a known one its record if six fields are repeated and a conflict otherwise, another tenant nothing |
| JournalSpec.FinalizeAnswers | apps/cloudflare-worker/src/journal.ts:118-137 | every answer of finalize: the record that is in the journal afterwards, and with it the mark of the journal, which is the terminal prefix if ids are non-empty; other records stay |
| JournalSpec.RetryReuses | apps/cloudflare-worker/src/journal.ts:78-93 | however much later, a retry with the same fingerprint finds the first record and writes nothing |
| JournalSpec.ConflictChangesNothing | apps/cloudflare-worker/src/journal.ts:82-91 | a known id is refused without a write if and only if the fingerprints differ |
| JournalSpec.FirstOutcomeStays | apps/cloudflare-worker/src/journal.ts:128-130 | however much later, a second finalize returns the first outcome and writes nothing |
| JournalSpec.ScanStops | apps/cloudflare-worker/src/journal.ts:148-163 | the scan stops at a maximal mark: everything it passed is terminal, and what comes next is missing, pending or nameless |
| JournalSpec.MarkIsTerminalPrefix | apps/cloudflare-worker/src/journal.ts:151-159 | the mark is the gapless terminal prefix if and only if no command in that prefix has the empty id |
| JournalSpec.EmptyIdStopsTheMark | apps/cloudflare-worker/src/journal.ts:153-154 | one command under the empty id keeps the mark at 0 for ever |
| JournalSpec.NamedMarkIsExact | apps/cloudflare-worker/src/journal.ts:148-163 | with non-empty ids the mark is exact, and the first pending command has the next sequence |
| JournalSpec.PendingOfIncreasing | apps/cloudflare-worker/src/journal.ts:112-116 | the pending list is strictly increasing in sequence |
| Journal.KeysApart | apps/cloudflare-worker/src/journal.ts:165-171 | for all ids and sequences the four key families are injective and never meet, and only command keys have the command prefix |
| Journal.RepresentsUnique | apps/cloudflare-worker/src/journal.ts:1-4 | one store stands for one journal |
| Journal.StoreLayout | apps/cloudflare-worker/src/journal.ts:1-4 | the keys under which number, mark, records and names stand, spelled out |
| Journal.TenantJournal.Prepare | apps/cloudflare-worker/src/journal.ts:73-106 | on the raw store: result and new store are those of the abstract prepare, keys outside the journal are as before |
| Journal.TenantJournal.Finalize | apps/cloudflare-worker/src/journal.ts:118-137 | on the raw store: result and new store are those of the abstract finalize, keys outside the journal are as before |
| Journal.TenantJournal.Pending | apps/cloudflare-worker/src/journal.ts:112-116 | listing by prefix in any order, filtering and sorting gives exactly the pending commands of the journal, oldest first |
| Journal.TenantJournal.Get | apps/cloudflare-worker/src/journal.ts:108-110 | the record found under the key is the journal's record of that id, or there is none |
| Journal.TenantJournal.ScanStore | apps/cloudflare-worker/src/journal.ts:151-159 | the loop over the raw keys ends, at the mark of the abstract scan |
| Journal.TenantJournal.AdvanceHighWaterMark | apps/cloudflare-worker/src/journal.ts:148-163 | the stored mark becomes the scanned one and nothing else changes |
| Journal.PendingFromListing | apps/cloudflare-worker/src/journal.ts:112-116 | any listing of the command prefix, sorted, is the journal |
| Checkpoint.CheckpointStore.Persist | apps/cloudflare-worker/src/checkpoint.ts:29-54 | for a process that dies after any number of writes: pointer, list and bucket are exactly what those writes make of them; nothing happens without an artifact |
| Checkpoint.LiveExactly | apps/cloudflare-worker/src/checkpoint.ts:42-52 | everything named stays readable at every point of a publication if and only if the list is not full or does not hold this checkpoint |
| Checkpoint.ActiveLostExactly | apps/cloudflare-worker/src/checkpoint.ts:50-84 | after a publication a reader without an id or with this one gets the new artifact, and finds it missing exactly when the checkpoint was the oldest of a full list; with another id nothing is found |
| Checkpoint.PublicationOrder | apps/cloudflare-worker/src/checkpoint.ts:42-52 | at every point of a publication: no pointer before the artifact, no list before the pointer, nothing deleted that is still listed |
| Checkpoint.CrashesKeepLive | apps/cloudflare-worker/src/checkpoint.ts:38-53 | for fresh ids and a crash anywhere in each of any number of publications, pointer and list name only artifacts that exist |
| Checkpoint.NewestThree | apps/cloudflare-worker/src/checkpoint.ts:45-52 | uninterrupted fresh publications: the list is the newest three, newest first, the pointer the newest, and the bucket holds exactly their artifacts besides what it held before |
| Checkpoint.ReadLatest | apps/cloudflare-worker/src/checkpoint.ts:67-84 | after any number of fresh publications with crashes, a reader without an id or with that of the last one that lived to write the pointer gets its artifact; with another id, or before there is one, nothing |
| Checkpoint.OthersUntouched | apps/cloudflare-worker/src/checkpoint.ts:42-52 | objects that no publication names survive any number of publications and crashes |
| Checkpoint.RepublishingLoses | apps/cloudflare-worker/src/checkpoint.ts:46-50 | publishing one of three listed generations again always loses an artifact that is still named |
| Checkpoint.AlwaysLiveExactly | apps/cloudflare-worker/src/checkpoint.ts:38-53 | for every list of publications, repeated and interrupted ones included: everything named can be read after each single write if and only if none gets to its deletion with a checkpoint that a full list holds at that moment |
| Checkpoint.RetryExactly | apps/cloudflare-worker/src/checkpoint.ts:42-52 | a fresh publication that died and is made again loses nothing if and only if it died before the list was written or the list had room for two more |
| Checkpoint.CheckpointKeysApart | apps/cloudflare-worker/src/checkpoint.ts:86-88 | artifact keys are injective in tenant and checkpoint and never a staged body's key |
| Checkpoint.WordKeys | apps/cloudflare-worker/src/checkpoint.ts:86-88 | names of letters and digits stand in the keys as they are |
| Checkpoint.TenantLiveExactly | apps/cloudflare-worker/src/checkpoint.ts:42-52 | `LiveExactly` with the artifact keys in use |
| Checkpoint.TenantCrashesKeepLive | apps/cloudflare-worker/src/checkpoint.ts:38-53 | `CrashesKeepLive` with the artifact keys in use |
| Checkpoint.TenantNewestThree | apps/cloudflare-worker/src/checkpoint.ts:45-52 | `NewestThree` with the artifact keys in use |
| Checkpoint.TenantReadLatest | apps/cloudflare-worker/src/checkpoint.ts:67-84 | `ReadLatest` with the artifact keys in use |
| Checkpoint.TenantRepublishingLoses | apps/cloudflare-worker/src/checkpoint.ts:46-50 | `RepublishingLoses` with the artifact keys in use |
| Checkpoint.TenantAlwaysLiveExactly | apps/cloudflare-worker/src/checkpoint.ts:38-53 | `AlwaysLiveExactly` with the artifact keys in use |
| Checkpoint.TenantsApart | apps/cloudflare-worker/src/checkpoint.ts:42-52 | in the shared bucket no publications of one tenant, repeated or interrupted, touch another tenant's artifacts or any staged body |
| Claim.ClaimPreimageInjective | rust/crates/celiums-memory-engine/src/claim.rs:30-53 | two claims hash the same bytes if and only if scope, subject, predicate, value, validity and the whole evidence list agree; confidence and transaction time never matter |
| Claim.ClaimRoundTrip | rust/crates/celiums-memory-engine/src/claim.rs:30-53 | the identity can be read back from the hashed bytes |
| Claim.SupersessionPreimageInjective | rust/crates/celiums-memory-engine/src/claim.rs:378-402 | two supersessions hash the same bytes if and only if original, successor, relation and effect time agree |
| Claim.ClaimLayout | rust/crates/celiums-memory-engine/src/claim.rs:30-53 | the bytes of a claim preimage: domain, then names and values in this order, an optional value after a presence byte, each piece of evidence in turn |
| Claim.SupersessionLayout | rust/crates/celiums-memory-engine/src/claim.rs:378-402 | the bytes of a supersession preimage |
| Claim.NumbersSpelled | rust/crates/celiums-memory-engine/src/claim.rs:784-789 | lengths are eight bytes, the lowest first; times are in two's complement |
| Claim.DomainsApart | rust/crates/celiums-memory-engine/src/claim.rs:20-33 | no claim and no supersession hash the same bytes |
| Claim.StreamRoundTrip | rust/crates/celiums-memory-engine/src/claim.rs:784-789 | a stream of length-prefixed fields can be cut back into its fields |
| Claim.DeriveClaim | rust/crates/celiums-memory-engine/src/claim.rs:30-53 | the bytes fed step by step to the hasher are the claim's preimage |
| Claim.DeriveSupersession | rust/crates/celiums-memory-engine/src/claim.rs:378-402 | the bytes fed step by step to the hasher are the supersession's preimage |
| Claim.Hasher.HashField | rust/crates/celiums-memory-engine/src/claim.rs:784-789 | four updates append one field to the stream |
| Claim.ValidityOverlap | rust/crates/celiums-memory-engine/src/claim.rs:519-536 | a reported overlap is valid at exactly the instants at which both intervals are |
| Claim.OverlapExactly | rust/crates/celiums-memory-engine/src/claim.rs:519-536 | an overlap is reported exactly for intervals that share an instant, if and only if not both are without a start with one ending at the first instant |
| Dedup.Dedupe | packages/federation/src/lib/dedup.ts:72-121 | the heap loop with its aliased records returns distinct objects whose values are those of the value-level fold |
| Dedup.Fused.Enrich | packages/federation/src/lib/dedup.ts:53-64 | the field-by-field update gives the richer document |
| Dedup.Deduper.MergeInto | packages/federation/src/lib/dedup.ts:100-107 | writing through one alias updates the record in the list and leaves all others as they are |
| Dedup.RanksExact | packages/federation/src/lib/dedup.ts:78-102 | over all outputs each source has the ranks 0 to n-1, each exactly once |
| Dedup.RanksConserved | packages/federation/src/lib/dedup.ts:100-118 | over all outputs together there is one rank entry for each input |
| Dedup.RunRanks | packages/federation/src/lib/dedup.ts:78-114 | the rank entries of an output are those of exactly the inputs that ended up in it, in their order |
| Dedup.RankStands | packages/federation/src/lib/dedup.ts:78-114 | the entry of an input stands in an output if and only if the input ended up there |
| Dedup.SourcesOfRanks | packages/federation/src/lib/dedup.ts:100-113 | the sources of an output are those of its own rank entries, each once |
| Dedup.RunGathers | packages/federation/src/lib/dedup.ts:53-118 | every input has one output; each output has the first of the longest abstracts and author lists of its inputs, and each of their sources once, in the order in which they came up |
| Dedup.RunFills | packages/federation/src/lib/dedup.ts:53-64 | each output has the first URL, DOI, external id and year of its inputs, source and score of the first, and the first of the longest titles, where only the first input may be the placeholder |
| Dedup.TitleMergesClose | packages/federation/src/lib/dedup.ts:85-98 | a document whose DOI no output has is merged if and only if an output begins with a document of its non-empty normalised title, both without a year or with rounded years at most one apart, and then into such an output |
| Dedup.PlaceExactly | packages/federation/src/lib/dedup.ts:83-98 | where a document ends up, in terms of the documents: in the output that has its DOI, or else in one that begins with its title and a near year, or else in a new one |
| Dedup.TwoByTitle | packages/federation/src/lib/dedup.ts:83-98 | two documents without a common DOI share an output if and only if their titles are the same and not empty and their years near |
| Dedup.YearBeforeWins | packages/federation/src/lib/dedup.ts:91-98 | an output that begins with the year before is preferred to one with the year after |
| Dedup.ByTitleExactly | packages/federation/src/lib/dedup.ts:91-98 | the title search finds an output if and only if a close key is indexed; the same year wins, then the year before |
| Dedup.TitlesApart | packages/federation/src/lib/dedup.ts:90-117 | the first documents of two different outputs never have the same normalised title with near years |
| Dedup.DoisUnique | packages/federation/src/lib/dedup.ts:90-116 | no two outputs have the same normalised DOI |
| Dedup.RunIndexed | packages/federation/src/lib/dedup.ts:89-117 | at every point the DOI index is exactly the present DOIs of the outputs, backfilled ones included, and the title index points into the list |
| Dedup.IndexedExactly | packages/federation/src/lib/dedup.ts:104-116 | a DOI is indexed after a document that has it if and only if the document was not merged by title into a record with another DOI text |
| Dedup.SameDoiTogether | packages/federation/src/lib/dedup.ts:89-90 | two inputs with one DOI share an output unless the first escaped the index that way |
| Dedup.EscapeSplits | packages/federation/src/lib/dedup.ts:91-106 | after an escape an untitled copy with that DOI always starts a new output |
| Dedup.SameDoiApart | packages/federation/src/lib/dedup.ts:91-116 | three documents for which this happens |
| Rrf.FuseRrf | packages/federation/src/lib/rrf.ts:34-59 | the array that is scored, sorted and overwritten in place is the fused ranking |
| Rrf.FusionOrdered | packages/federation/src/lib/rrf.ts:42-58 | the ranking is a permutation of the input, sorted by the comparator, stable on ties, with position as rank, the fused score as score and the number of sources as consensus |
| Rrf.ScoreExactly | packages/federation/src/lib/rrf.ts:35-37 | the score is 0 without entries, and each entry adds the reciprocal of k and its rank |
| Rrf.FusionLexicographic | packages/federation/src/lib/rrf.ts:42-48 | of two records the earlier has the higher score, or else more sources, or else the higher own score, or else the earlier title |
| Rrf.ComparatorConsistent | packages/federation/src/lib/rrf.ts:42-48 | the comparator is a total preorder |
| Rrf.DominanceExactly | packages/federation/src/lib/rrf.ts:24-37 | m rank entries up to R always beat fewer entries if and only if k > (m-1)R |
| Rrf.DominantFirst | packages/federation/src/lib/rrf.ts:42-48 | such a record comes before every record with fewer entries |
| Sorting.SortStable | packages/federation/src/lib/rrf.ts:42-48 | the sort gives a sorted permutation that keeps ties in order |
| Sorting.SortUnique | packages/federation/src/lib/rrf.ts:45-47 | there is only one such result, whatever the algorithm |
| Uri.PrintParse | rust/crates/celiums-memory-cli/src/mcp.rs:1282-1334 | parsing a printed URI gives back id and scope if and only if the id is non-empty without '/' and '?' and no identity is empty |
| Uri.PrintedForm | rust/crates/celiums-memory-cli/src/mcp.rs:1282-1306 | a printed URI, character by character |
| Uri.ParseExactly | rust/crates/celiums-memory-cli/src/mcp.rs:1308-1334 | for every id and query: the URI parses if and only if the id is not empty and has no '/' and each piece of the query that is not empty is one of five names, '=' and a non-empty value that decodes; of equal names the last one counts |
| Uri.ReadPairCut | rust/crates/celiums-memory-cli/src/mcp.rs:1317-1331 | the error of a pair: a parameter without '=', with another name or without a value, and otherwise the encoding |
| Uri.RecallScopeExactly | rust/crates/celiums-memory-cli/src/mcp.rs:1856-1867 | absent tenant and user are 'local', and every identity that is given must be non-empty and valid |
| Uri.ScopeRoundTrip | rust/crates/celiums-memory-cli/src/mcp.rs:1856-1867 | the recall scope of the parsed arguments is the printed scope |
| Uri.ParseUri | rust/crates/celiums-memory-cli/src/mcp.rs:1308-1334 | the loop over the pairs computes the parse, errors included, the last of equal keys winning |
| Uri.InjectedPairs | rust/crates/celiums-memory-cli/src/mcp.rs:1146-1158 | an injected URI has one tenant pair, first, and the other pairs in their order |
| Uri.InjectedForm | rust/crates/celiums-memory-cli/src/mcp.rs:1146-1158 | an injected URI, character by character |
| Uri.InjectLastWins | rust/crates/celiums-memory-cli/src/mcp.rs:1146-1158 | injecting after an injection is injecting once |
| Uri.InjectedTenant | rust/crates/celiums-memory-cli/src/mcp.rs:1146-1158 | whatever URI comes in, what parses after the injection has the local tenant |
| Uri.InjectedScope | rust/crates/celiums-memory-cli/src/mcp.rs:1856-1867 | and so has the recall scope of it |
| Uri.InjectReplacesTenant | rust/crates/celiums-memory-cli/src/mcp.rs:1146-1158 | for every URI that parses, the injection replaces the tenant and nothing else |
| Uri.InjectPrinted | rust/crates/celiums-memory-cli/src/mcp.rs:1146-1158 | injecting into a printed URI is printing with the other tenant |
| Uri.InjectKeepsResource | rust/crates/celiums-memory-cli/src/mcp.rs:1169-1172 | the injection does not change which resource is meant |
| Percent.DecodeEncode | rust/crates/celiums-memory-cli/src/mcp.rs:1328-1338 | percent-encoding of UTF-8 is undone by decoding, for both sets of kept characters |
| Percent.WrittenExactly | rust/crates/celiums-memory-cli/src/mcp.rs:1336-1338 | which bytes are written as they are, and the others as a percent sign with two upper hexadecimal digits |
| Percent.ReadEscape | rust/crates/celiums-memory-cli/src/mcp.rs:1328-1330 | a percent sign with two hexadecimal digits of either case is read as a byte |
| Percent.ReadPlain | rust/crates/celiums-memory-cli/src/mcp.rs:1328-1330 | and every other character as itself |
| Framing.ReadBoundedLine | rust/crates/celiums-memory-cli/src/mcp.rs:2011-2039 | for every way the buffer fills, the result is the first line of the bytes, an error exactly if it is too long, and the rest is left |
| Framing.ReadAll | rust/crates/celiums-memory-cli/src/mcp.rs:115-120 | a whole session reads a function of the bytes alone; if it ends well, the lines concatenate to the stream |
| Framing.SessionExactly | rust/crates/celiums-memory-cli/src/mcp.rs:2028-2033 | what is read are the lines before the first one over 4 MiB, and all of them exactly if there is none |
| Framing.LinesFramed | rust/crates/celiums-memory-cli/src/mcp.rs:2024-2037 | the lines concatenate to the stream, none is empty, and newlines stand only at ends |
| Framing.FramingUnique | rust/crates/celiums-memory-cli/src/mcp.rs:2024-2037 | there is no other way to cut a stream like that |
| Confirm.GrantsExactly | rust/crates/celiums-memory-cli/src/mcp.rs:821-858 | over every history a use is granted if and only if that token stands for that operation and resource and has not expired; the purge is never felt |
| Confirm.GrantsForIssue | rust/crates/celiums-memory-cli/src/mcp.rs:821-858 | the same on the history itself: some event issued the token for this use at most 300 s ago, and no later one names it |
| Confirm.GrantedAtMostIssued | rust/crates/celiums-memory-cli/src/mcp.rs:844-858 | no token is good for more uses than it was issued for |
| Confirm.Session.Consume | rust/crates/celiums-memory-cli/src/mcp.rs:844-858 | the method grants exactly what the state grants and burns the token either way |
| Confirm.Session.ConfirmDestructive | rust/crates/celiums-memory-cli/src/mcp.rs:821-842 | a token is issued exactly for the three destructive operations |
| Redaction.NormalizeGreedy | rust/crates/celiums-cognition/src/governance.rs:478-494 | the kept spans are a disjoint sorted part of the input, and every dropped span starts inside a kept one |
| Redaction.NormalizeMaximal | rust/crates/celiums-cognition/src/governance.rs:478-494 | no dropped span could be added |
| Redaction.NormalizeIdempotent | rust/crates/celiums-cognition/src/governance.rs:478-494 | normalising twice is normalising once |
| Redaction.LaminarCovered | rust/crates/celiums-cognition/src/governance.rs:478-494 | nested or disjoint spans are covered byte for byte by the kept ones |
| Redaction.CoverageExactly | rust/crates/celiums-cognition/src/governance.rs:478-494 | for every list of spans: the kept spans cover what the detected ones cover if and only if, wherever a detected span runs on past the end of a kept one, another detected span begins |
| Redaction.CoverageOfTiles | rust/crates/celiums-cognition/src/governance.rs:478-494 | the same in terms of the input: some of the detected spans, without overlap and each the longest at its start, cover everything detected |
| Redaction.TwoSpansExactly | rust/crates/celiums-cognition/src/governance.rs:486-492 | for two spans that means nested or disjoint |
| Redaction.NormalizeSpans | rust/crates/celiums-cognition/src/governance.rs:478-494 | the loop computes the greedy normalisation |
| Redaction.Redact | rust/crates/celiums-cognition/src/governance.rs:319-339 | the cursor loop is the replacement of the spans it uses |
| Redaction.RedactExactly | rust/crates/celiums-cognition/src/governance.rs:319-339 | for every text and every list: a span is replaced if and only if it is not empty, ends within the text, has a character or the end at both ends and does not start inside another that is replaced |
| Redaction.OneSecret | rust/crates/celiums-cognition/src/governance.rs:325-338 | one secret, wherever it stands in a text, the end included, is replaced by what stands for it and nothing else changes |
| Redaction.NormalizedAllUsed | rust/crates/celiums-cognition/src/governance.rs:319-339 | on a normalised list of spans that start and end between characters of a text nothing is skipped |
| Redaction.SpliceCopies | rust/crates/celiums-cognition/src/governance.rs:334-337 | every byte outside the spans is in the output, at its place moved by the spans before it |
| Redaction.SpliceReplaces | rust/crates/celiums-cognition/src/governance.rs:334-335 | every byte of a replacement is in the output, at the place of its span |
| Redaction.ShorterUsed | rust/crates/celiums-cognition/src/governance.rs:320-333 | of two spans of whole characters with one start the rewrite uses the shorter, where the normalisation keeps the longer |
| Redaction.RedactLength | rust/crates/celiums-cognition/src/governance.rs:319-339 | for every list of spans the exact length of the output |
| Redaction.RedactPermutation | rust/crates/celiums-cognition/src/governance.rs:320-321 | the order of the list does not matter, whatever the spans, if no two different spans have the same bounds |
| Luhn.ParityIsStandard | rust/crates/celiums-cognition/src/governance.rs:496-515 | for every length, the sum by index parity is the right-to-left sum of the standard |
| Luhn.ValidExactly | rust/crates/celiums-cognition/src/governance.rs:496-515 | a number as it is written is accepted if and only if it has 13 to 19 digits and its standard sum, by the sum of the digits of each double, is a multiple of 10 |
| Luhn.SeparatorsIgnored | rust/crates/celiums-cognition/src/governance.rs:497-500 | anything that is not a digit may stand anywhere |
| Luhn.SingleErrorFound | rust/crates/celiums-cognition/src/governance.rs:496-515 | any single changed digit of a valid number is found |
| Luhn.SwapExactly | rust/crates/celiums-cognition/src/governance.rs:496-515 | a swap of two neighbours in a valid number goes unnoticed exactly for equal digits and for 0 and 9 |
| Luhn.CheckDigitUnique | rust/crates/celiums-cognition/src/governance.rs:496-515 | every prefix of 12 to 18 digits has exactly one check digit |
| Rhythm.InferActivityRhythm | rust/crates/celiums-cognition/src/circadian.rs:280-334 | nothing is inferred from fewer than 12 samples; otherwise, in terms of the 24 hours: the centre is four hours into the earliest quietest eight hours, the offset brings it to half past three within a day, and the confidence is the least of 1 and total / 120, times 1 - 3 best / total, to three decimals |
| Rhythm.TroughEarliest | rust/crates/celiums-cognition/src/circadian.rs:291-302 | the trough is the earliest least active window, the start value of the scan never survives, and three times its sum is at most the total |
| Rhythm.ContrastExactly | rust/crates/celiums-cognition/src/circadian.rs:319-327 | the contrast is 1 - 3 best / total without clamping, and 0 exactly when all windows are equal |
| Rhythm.ConfidenceRange | rust/crates/celiums-cognition/src/circadian.rs:327-328 | the confidence lies in [0, 1] and is 0 for a flat day |
| Rhythm.ConfidenceExactly | rust/crates/celiums-cognition/src/circadian.rs:319-328 | 1000 times the confidence is a whole number, and the one that is nearest to 1000 times the exact weight, half up |
| Rhythm.OffsetMinutes | rust/crates/celiums-cognition/src/circadian.rs:306-317 | the two loops and the rounding give 210 - 60 centre, brought into one day |
| Rhythm.NormalizedExactly | rust/crates/celiums-cognition/src/circadian.rs:309-315 | that is the only number of minutes in (-720, 720] that differs by whole days |
| Rhythm.RotationShifts | rust/crates/celiums-cognition/src/circadian.rs:291-302 | rotating a day with a single least active window moves the trough by as many hours |
| Rhythm.OffsetShifts | rust/crates/celiums-cognition/src/circadian.rs:306-317 | and the offset by 60 minutes for each, around the day |
| Breaker.RunMeaning | packages/federation/src/lib/http.ts:54-79 | over every interleaving the counter is the trailing run of failures, the breaker is closed exactly when it is below 5, and otherwise it holds the time of the last failure |
| Breaker.AdmitsExactly | packages/federation/src/lib/http.ts:54-63 | a call is refused if and only if five failures stand that no success has followed and the last of them is less than 30 s ago |
| Breaker.ProbeTestRedundant | packages/federation/src/lib/http.ts:74-78 | the test for a failed probe never decides |
| Breaker.ProbesUnlimited | packages/federation/src/lib/http.ts:13-17 | after the cooldown any number of calls is let through until one reports |
| Breaker.ProbesExactly | packages/federation/src/lib/http.ts:54-63 | from an open breaker, for every list of asks in the order of time without an outcome in between, as many are let through as ask 30 s or more after it opened |
| Breaker.SequentialState | packages/federation/src/lib/http.ts:54-79 | if no call asks while another is under way, at most one is under way and the breaker is half-open only then |
| Breaker.OneProbe | packages/federation/src/lib/http.ts:13-17 | and a probe is then followed by its own outcome, which closes the breaker or opens it anew at the time of the failure |
| Breaker.Connector.FetchPolite | packages/federation/src/lib/http.ts:123-139 | with other calls in between: a response exactly if the first attempt is answered or, after an error that is no cancellation, the second; exactly one outcome for an admitted call, none for another |
| Breaker.Connector.Preflight | packages/federation/src/lib/http.ts:54-63 | the method admits exactly what the history admits |
| Breaker.Connector.RecordFailure | packages/federation/src/lib/http.ts:71-79 | the fields after a failure are those of the history with it |
| Breaker.Connector.RecordSuccess | packages/federation/src/lib/http.ts:65-69 | the fields after a success are those of the history with it |
| Gate.Evaluate | rust/crates/celiums-cognition/src/ethics.rs:520-559 | every unsuppressed flag at its violation threshold is reported with its category and weight, every first match of its kind unless something of its category has its confidence to two decimals, and nothing else; the gate is closed exactly for a block in that list or for 0.95 in one of six categories, and passed is its negation |
| Gate.ThresholdBands | rust/crates/celiums-cognition/src/ethics.rs:87-102 | the thresholds of every category |
| Gate.LexiconExactly | rust/crates/celiums-cognition/src/ethics.rs:520-533 | the lexicon violations are, in order and one for one, the unsuppressed flags that reach their threshold, with category and weight, blocking exactly from the block threshold |
| Gate.StructuralExactly | rust/crates/celiums-cognition/src/ethics_structural.rs:355-376 | the structural violations are, in order and one for one, the first matches of their kinds, with category and confidence, blocking exactly from 0.85 |
| Gate.MergeExactly | rust/crates/celiums-cognition/src/ethics_structural.rs:391-404 | the merged list is the lexicon list and, in order, the structural violations that nothing before them in it has category and rounded confidence of |
| Gate.EvaluationExactly | rust/crates/celiums-cognition/src/ethics.rs:520-551 | all that is reported comes from a flag or from a first match, and each of these is represented |
| Gate.GateExactly | rust/crates/celiums-cognition/src/ethics.rs:535-551 | the merged list holds a block if and only if one of the two lists does, and a hit above the floor always comes with one |
| Gate.EnforcementExactly | rust/crates/celiums-cognition/src/ethics.rs:520-551 | for all detections the gate is closed if and only if an unsuppressed term reaches its block threshold or a blocking match is the first with its pattern and 40 characters |
| Gate.MergeBlocks | rust/crates/celiums-cognition/src/ethics_structural.rs:391-404 | merging by category and rounded confidence loses no block |
| Gate.MergeViolations | rust/crates/celiums-cognition/src/ethics_structural.rs:391-404 | the loop with its list of keys computes the merge |
| Gate.ShadowedExactly | rust/crates/celiums-cognition/src/ethics_structural.rs:398-403 | for which block thresholds a key could hide a structural block behind a lexicon violation that does not block |
| Gate.StructuralMatchesToViolations | rust/crates/celiums-cognition/src/ethics_structural.rs:355-376 | the loop keeps the first match for each key |
| Gate.StructuralBlockExactly | rust/crates/celiums-cognition/src/ethics_structural.rs:359-372 | the list holds a block if and only if a blocking match is the first with its key |
| Gate.LostBlocksAreForcedAction | rust/crates/celiums-cognition/src/ethics_structural.rs:192-203 | with these tables only one pattern can lose its block, to an earlier match of its weaker row |
| Gate.ForcedActionLost | rust/crates/celiums-cognition/src/ethics_structural.rs:192-203 | two matches for which this happens |
| Gate.ScanKeepsViolations | rust/crates/celiums-cognition/src/ethics_structural.rs:314-325 | dropping repeated matches during the scan changes no violation |
| Tail.ComputeCvar5 | rust/crates/celiums-cognition/src/ethics_layer_b.rs:417-429 | 0 without risks; otherwise the mean, brought into [0, 1], of the worst twentieth, rounded up: no choice of that many weighs more |
| Tail.TailIsWorst | rust/crates/celiums-cognition/src/ethics_layer_b.rs:425-428 | no choice of that many risks weighs more than the tail |
| Tail.TailPermutation | rust/crates/celiums-cognition/src/ethics_layer_b.rs:421-425 | the order in which risks were found does not matter |

## Left out

- Requests forwarded without a journal record (GET, HEAD and the protocol-only MCP calls) reach the container in the code; the model stops at the decision.
- Whether an MCP body names a protocol-only call is a flag of the request; JSON parsing is not modelled.
- The authorization and protocol-version headers that a replay adds, and the content type that the platform gives a body sent without one, are not part of a message.
- The hook that publishes a checkpoint before an export is finalized is a point where the request may fail; replays do not run it, so no stored pointer is claimed for a replayed export.
- Sequence numbers and marks are unbounded; the code keeps them in doubles, exact up to 2^53.
- Lengths of operation ids count characters, where JavaScript counts UTF-16 code units; header values are any text.
- SHA-256 and BLAKE3 are taken as free of collisions; the cut of a hash to a UUID is not modelled.
- Worker.TenantRuntime.ReplayPending: the methods of `Worker` run one at a time; interleaving is the matter of `Runtime`, `Guarantees` and `Replays`. Text and bodies are strings of characters there.
- Rebuilding container state from a checkpoint and the journal, and the routes, alarms and queues that start a replay.
- Checkpoint pointers carry id, sequence and digest; sizes, times and the ciphertext digest are left out.
- Claim text stands for its UTF-8 bytes, shorter than 2^63; request validation, record codecs and contradiction detection are left out.
- The text normalisers of `Dedup` are any functions with no DOI for the empty text; the title key is a pair, which the code prints with '::' between title and year. Absent and empty optional texts are not told apart, as in the code.
- Rrf.Score: real arithmetic, because rounding is not the point; NaN scores are left out, and the locale's order of titles is any integer ranking.
- The validity check of identities is a parameter of `Uri.RecallScope`; JSON arguments other than the URI are left out of the injection.
- Framing: I/O errors of the reader and the skipping of blank lines are left out.
- Confirm: tokens are any strings; the two clock readings of one call are one.
- The patterns that find secrets are left out; spans are any, and non-empty where normalisation is meant.
- Rhythm.InferActivityRhythm: real arithmetic; the total fits 32 bits, where the code would otherwise overflow.
- Breaker.AdmitsExactly: for a clock that does not run back; what becomes of each attempt, timeouts and cancellations included, is a parameter of `FetchPolite`.
- Gate.Hundredths: real arithmetic and half up, where the code prints a double to two decimals; lexicon weights are any reals. Dedup keys are tuples, where the code joins their parts with ':'.
- Word matching, the suppression cascade, alarms, arousal and confidence of the ethics engine, and Layers C and K.
- Tail.ComputeCvar5: real arithmetic.
- Model routing, connectors, the benchmarks, the installer, Postgres and Redis, and the memory engine's store.
