/** Checkpoint publication: the artifact, the active pointer and the list of retained generations are written
    one await at a time, then older artifacts are deleted. The process may die after any of these writes. */
module Checkpoint {
  import opened Wrappers
  import Cut
  import Lists
  import Percent
  import Runtime

  const RETENTION := 3

  datatype Metadata = Metadata(checkpointId: string, sequence: nat, digest: string)

  datatype Pointer = Pointer(metadata: Metadata, r2Key: string) {
    function Id(): string { metadata.checkpointId }
  }

  datatype State = State(active: Option<Pointer>, history: seq<Pointer>, bucket: map<string, string>)

  datatype Failure = NoArtifact | Interrupted

  datatype Response = NotFound | Missing | Artifact(pointer: Pointer, body: string)

  // How one tenant's artifacts are named; `TenantKey` is the naming in use.
  type Naming = string -> string

  function CheckpointKey(tenantId: string, checkpointId: string): string {
    "tenants/" + Percent.Encode(Percent.Component, tenantId) + "/checkpoints/"
    + Percent.Encode(Percent.Component, checkpointId) + ".bin"
  }

  lemma KeysCut(head: string, middle: string, tail: string, a: string, b: string, c: string, d: string)
    requires '/' !in a && '/' !in c && middle != [] && middle[0] == '/'
    requires head + a + middle + b + tail == head + c + middle + d + tail
    ensures a == c && b == d
  {
    var s, t := head + a + middle + b + tail, head + c + middle + d + tail;
    var u, v := middle[1..] + b + tail, middle[1..] + d + tail;
    assert middle == ['/'] + middle[1..];
    assert s[|head|..] == a + ['/'] + u && t[|head|..] == c + ['/'] + v;
    Cut.JoinInjective(a, u, c, v, '/');
    assert u[|middle| - 1..|u| - |tail|] == b && v[|middle| - 1..|v| - |tail|] == d;
  }

  lemma CheckpointKeyInjective(t: string, a: string, u: string, b: string)
    requires CheckpointKey(t, a) == CheckpointKey(u, b)
    ensures t == u && a == b
  {
    var kept := Percent.Component;
    Percent.EncodePlain(kept, t);
    Percent.EncodePlain(kept, u);
    KeysCut("tenants/", "/checkpoints/", ".bin", Percent.Encode(kept, t), Percent.Encode(kept, a),
            Percent.Encode(kept, u), Percent.Encode(kept, b));
    Percent.EncodeInjective(kept, t, u);
    Percent.EncodeInjective(kept, a, b);
  }

  // Artifacts of different checkpoints or tenants never share an object, and none is a staged request body.
  lemma CheckpointKeysApart(t: string, a: string, u: string, b: string)
    ensures CheckpointKey(t, a) == CheckpointKey(u, b) ==> t == u && a == b
    ensures CheckpointKey(t, a) != Runtime.BodyRef(u, b)
  {
    assert CheckpointKey(t, a)[0] == 't' && Runtime.BodyRef(u, b)[0] == 'p';
    if CheckpointKey(t, a) == CheckpointKey(u, b) {
      CheckpointKeyInjective(t, a, u, b);
    }
  }

  // Names of letters and digits stand in the keys as they are.
  lemma WordKeys(tenantId: string, id: string)
    requires forall c | c in tenantId || c in id :: '0' <= c <= '9' || 'A' <= c <= 'Z' || 'a' <= c <= 'z'
    ensures CheckpointKey(tenantId, id) == "tenants/" + tenantId + "/checkpoints/" + id + ".bin"
    ensures Runtime.BodyRef(tenantId, id) == "pending/" + tenantId + "/" + id + ".bin"
  {
    Percent.EncodeWord(Percent.Component, tenantId);
    Percent.EncodeWord(Percent.Component, id);
  }

  ghost predicate Distinct(key: Naming) {
    forall a, b :: key(a) == key(b) ==> a == b
  }

  // The naming in use.
  function TenantKey(tenantId: string): Naming { id => CheckpointKey(tenantId, id) }

  lemma TenantNaming(tenantId: string)
    ensures Distinct(TenantKey(tenantId))
  {
    var key := TenantKey(tenantId);
    forall a, b ensures key(a) == key(b) ==> a == b {
      CheckpointKeysApart(tenantId, a, tenantId, b);
    }
  }

  function Others(history: seq<Pointer>, id: string): seq<Pointer> {
    if history == [] then []
    else (if history[0].Id() != id then [history[0]] else []) + Others(history[1..], id)
  }

  function Retained(history: seq<Pointer>, pointer: Pointer): seq<Pointer> {
    var all := [pointer] + Others(history, pointer.Id());
    if |all| > RETENTION then all[..RETENTION] else all
  }

  // What the last loop deletes: it is cut from the history as it was read, before the filter.
  function Expired(history: seq<Pointer>): seq<Pointer> {
    if |history| > RETENTION - 1 then history[RETENTION - 1..] else []
  }

  function Delete(bucket: map<string, string>, expired: seq<Pointer>): map<string, string> {
    bucket - set p | p in expired :: p.r2Key
  }

  lemma DeleteNext(bucket: map<string, string>, expired: seq<Pointer>, i: nat)
    requires i < |expired|
    ensures Delete(bucket, expired[..i + 1]) == Delete(bucket, expired[..i]) - {expired[i].r2Key}
  {
    assert expired[..i + 1] == expired[..i] + [expired[i]];
  }

  // The state when the process dies after `writes` writes, or finishes.
  function After(s: State, pointer: Pointer, content: string, writes: nat): State {
    if writes == 0 then s
    else
      var uploaded := s.(bucket := s.bucket[pointer.r2Key := content]);
      if writes == 1 then uploaded
      else
        var pointed := uploaded.(active := Some(pointer));
        if writes == 2 then pointed
        else
          var expired := Expired(s.history);
          State(pointed.active, Retained(s.history, pointer),
                Delete(pointed.bucket, if writes - 3 < |expired| then expired[..writes - 3] else expired))
  }

  function Read(s: State, id: Option<string>): Response {
    if s.active.None? then NotFound
    else if id.Some? && id.value != "" && id.value != s.active.value.Id() then NotFound
    else if s.active.value.r2Key !in s.bucket then Missing
    else Artifact(s.active.value, s.bucket[s.active.value.r2Key])
  }

  /** The pointer storage and the bucket of one tenant. */
  class CheckpointStore {
    const key: Naming
    var active: Option<Pointer>
    var history: seq<Pointer>
    var bucket: map<string, string>

    constructor (key: Naming, bucket: map<string, string>)
      ensures this.key == key && Current() == State(None, [], bucket)
    {
      this.key := key;
      this.active := None;
      this.history := [];
      this.bucket := bucket;
    }

    function Current(): State
      reads this
    {
      State(active, history, bucket)
    }

    // `writes` is how many writes the process lives for.
    method Persist(metadata: Metadata, ok: bool, body: Option<string>, writes: nat)
      returns (r: Result<Pointer, Failure>)
      modifies this
      ensures r == Err(NoArtifact) <==> !ok || body.None?
      ensures r == Err(NoArtifact) ==> Current() == old(Current())
      ensures r != Err(NoArtifact) ==>
        Current() == After(old(Current()), Pointer(metadata, key(metadata.checkpointId)), body.value, writes)
      ensures r.Ok? ==> r.value == Pointer(metadata, key(metadata.checkpointId))
      ensures r != Err(NoArtifact) ==> (r.Ok? <==> writes >= RETENTION + |Expired(old(history))|)
    {
      if !ok || body.None? {
        return Err(NoArtifact);
      }
      var pointer := Pointer(metadata, key(metadata.checkpointId));
      if writes == 0 { return Err(Interrupted); }
      bucket := bucket[pointer.r2Key := body.value];
      var before := history;
      var retained := Retained(before, pointer);
      if writes == 1 { return Err(Interrupted); }
      active := Some(pointer);
      if writes == 2 { return Err(Interrupted); }
      history := retained;
      var expired := Expired(before);
      var uploaded := bucket;
      var i := 0;
      while i < |expired|
        invariant 0 <= i <= |expired| && i <= writes - 3
        invariant active == Some(pointer) && history == retained
        invariant bucket == Delete(uploaded, expired[..i])
      {
        if writes == 3 + i { return Err(Interrupted); }
        DeleteNext(uploaded, expired, i);
        bucket := bucket - {expired[i].r2Key};
        i := i + 1;
      }
      assert expired[..i] == expired;
      return Ok(pointer);
    }

    method ReadArtifact(id: Option<string>) returns (r: Response)
      ensures r == Read(Current(), id)
    {
      if active.None? {
        return NotFound;
      }
      if id.Some? && id.value != "" && id.value != active.value.Id() {
        return NotFound;
      }
      if active.value.r2Key !in bucket {
        return Missing;
      }
      return Artifact(active.value, bucket[active.value.r2Key]);
    }
  }

  predicate Listed(history: seq<Pointer>, id: string) {
    exists p :: p in history && p.Id() == id
  }

  ghost predicate Shape(key: Naming, s: State) {
    && |s.history| <= RETENTION
    && (forall i | 0 <= i < |s.history| :: s.history[i].r2Key == key(s.history[i].Id()))
    && (forall i, j | 0 <= i < j < |s.history| :: s.history[i].Id() != s.history[j].Id())
    && (s.active.Some? ==> s.active.value.r2Key == key(s.active.value.Id()))
  }

  // Everything the pointer and the list name can still be read.
  predicate Live(s: State) {
    && (s.active.Some? ==> s.active.value.r2Key in s.bucket)
    && (forall i | 0 <= i < |s.history| :: s.history[i].r2Key in s.bucket)
  }

  lemma {:induction false} OthersFilter(history: seq<Pointer>, id: string)
    ensures !Listed(Others(history, id), id)
    ensures !Listed(history, id) ==> Others(history, id) == history
    ensures forall p :: p in Others(history, id) <==> p in history && p.Id() != id
    ensures |Others(history, id)| <= |history| - if Listed(history, id) then 1 else 0
  {
    if history != [] {
      OthersFilter(history[1..], id);
      assert forall p :: p in history <==> p == history[0] || p in history[1..];
    }
  }

  lemma {:induction false} OthersDistinct(history: seq<Pointer>, id: string)
    requires forall i, j | 0 <= i < j < |history| :: history[i].Id() != history[j].Id()
    ensures |Others(history, id)| >= |history| - 1
    ensures !Listed(history, id) ==> |Others(history, id)| == |history|
    ensures forall i, j | 0 <= i < j < |Others(history, id)| ::
      Others(history, id)[i].Id() != Others(history, id)[j].Id()
  {
    OthersFilter(history, id);
    if history != [] {
      OthersFilter(history[1..], id);
      OthersDistinct(history[1..], id);
      if history[0].Id() == id {
        assert !Listed(history[1..], id);
      }
    }
  }

  lemma RetainedShape(key: Naming, history: seq<Pointer>, pointer: Pointer)
    requires Shape(key, State(None, history, map[])) && pointer.r2Key == key(pointer.Id())
    ensures Shape(key, State(None, Retained(history, pointer), map[]))
  {
    var others := Others(history, pointer.Id());
    OthersFilter(history, pointer.Id());
    OthersDistinct(history, pointer.Id());
    forall i | 0 <= i < |others| ensures others[i].r2Key == key(others[i].Id()) && others[i].Id() != pointer.Id() {
      assert others[i] in history;
    }
    ShapeInFront(key, others, pointer);
  }

  lemma ShapeInFront(key: Naming, others: seq<Pointer>, pointer: Pointer)
    requires pointer.r2Key == key(pointer.Id())
    requires forall i | 0 <= i < |others| :: others[i].r2Key == key(others[i].Id()) && others[i].Id() != pointer.Id()
    requires forall i, j | 0 <= i < j < |others| :: others[i].Id() != others[j].Id()
    ensures var all := [pointer] + others;
      Shape(key, State(None, if |all| > RETENTION then all[..RETENTION] else all, map[]))
  {
    var all := [pointer] + others;
    assert forall i | 1 <= i < |all| :: all[i] == others[i - 1];
  }

  lemma ShapeKept(key: Naming, s: State, pointer: Pointer, content: string, writes: nat)
    requires Shape(key, s) && pointer.r2Key == key(pointer.Id())
    ensures Shape(key, After(s, pointer, content, writes))
  {
    RetainedShape(key, s.history, pointer);
  }

  // At most one artifact expires, and only from a full list.
  lemma BucketAfter(s: State, pointer: Pointer, content: string, writes: nat)
    requires |s.history| <= RETENTION
    ensures var bucket := After(s, pointer, content, writes).bucket;
      bucket == if writes == 0 then s.bucket
                else if writes <= 3 || |s.history| < RETENTION then s.bucket[pointer.r2Key := content]
                else s.bucket[pointer.r2Key := content] - {s.history[2].r2Key}
  {
    var expired := Expired(s.history);
    if writes >= 3 && |s.history| == RETENTION {
      assert expired == [s.history[2]] && expired[..0] == [];
    }
  }

  lemma HistoryAfter(s: State, pointer: Pointer, content: string, writes: nat)
    requires |s.history| <= RETENTION && !Listed(s.history, pointer.Id())
    ensures var history := After(s, pointer, content, writes).history;
      history == if writes < 3 then s.history
                 else if |s.history| < RETENTION then [pointer] + s.history
                 else [pointer, s.history[0], s.history[1]]
  {
    OthersFilter(s.history, pointer.Id());
  }

  lemma ListedRetained(history: seq<Pointer>, pointer: Pointer)
    requires |history| <= RETENTION && Listed(history, pointer.Id())
    ensures Retained(history, pointer) == [pointer] + Others(history, pointer.Id())
    ensures forall p :: p in Retained(history, pointer) <==> p == pointer || (p in history && p.Id() != pointer.Id())
  {
    OthersFilter(history, pointer.Id());
  }

  // A publication keeps every named artifact readable at every point where it may die, if and only if the list
  // is not full or does not have this checkpoint in it already.
  lemma LiveExactly(key: Naming, s: State, pointer: Pointer, content: string)
    requires Distinct(key) && Shape(key, s) && Live(s) && pointer.r2Key == key(pointer.Id())
    ensures (forall writes: nat :: Live(After(s, pointer, content, writes))) <==>
            |s.history| < RETENTION || !Listed(s.history, pointer.Id())
  {
    if |s.history| < RETENTION || !Listed(s.history, pointer.Id()) {
      forall writes: nat ensures Live(After(s, pointer, content, writes)) {
        LiveKept(key, s, pointer, content, writes);
      }
    } else {
      FullListLoses(key, s, pointer, content, RETENTION + 1);
      assert !Live(After(s, pointer, content, RETENTION + 1));
    }
  }

  lemma FullListLoses(key: Naming, s: State, pointer: Pointer, content: string, writes: nat)
    requires Shape(key, s) && |s.history| == RETENTION && Listed(s.history, pointer.Id())
    requires pointer.r2Key == key(pointer.Id()) && writes >= RETENTION + 1
    ensures !Live(After(s, pointer, content, writes))
  {
    var last := s.history[2];
    BucketAfter(s, pointer, content, writes);
    ListedRetained(s.history, pointer);
    if last.Id() != pointer.Id() {
      assert last in Retained(s.history, pointer);
    }
  }

  lemma LiveKept(key: Naming, s: State, pointer: Pointer, content: string, writes: nat)
    requires Distinct(key) && Shape(key, s) && Live(s) && pointer.r2Key == key(pointer.Id())
    requires |s.history| < RETENTION || !Listed(s.history, pointer.Id())
    ensures Live(After(s, pointer, content, writes))
  {
    BucketAfter(s, pointer, content, writes);
    if Listed(s.history, pointer.Id()) {
      ListedRetained(s.history, pointer);
      assert forall p | p in Retained(s.history, pointer) :: p == pointer || p.r2Key in s.bucket;
    } else {
      HistoryAfter(s, pointer, content, writes);
    }
  }

  // The order of the writes: a checkpoint is active only once its artifact is up, listed only once it is active, and
  // an artifact goes only once the list no longer has it.
  lemma PublicationOrder(key: Naming, s: State, pointer: Pointer, content: string, writes: nat)
    requires Distinct(key) && Shape(key, s) && !Listed(s.history, pointer.Id()) && s.active != Some(pointer)
    requires pointer.r2Key == key(pointer.Id()) && pointer.r2Key !in s.bucket
    ensures var later := After(s, pointer, content, writes);
      && (later.active == Some(pointer) ==> pointer.r2Key in later.bucket && later.bucket[pointer.r2Key] == content)
      && (later.active != Some(pointer) ==> later.active == s.active && later.history == s.history)
      && (pointer in later.history ==> later.active == Some(pointer))
      && (forall q | q in s.history && q.r2Key in s.bucket && q.r2Key !in later.bucket :: q !in later.history)
  {
    BucketAfter(s, pointer, content, writes);
    HistoryAfter(s, pointer, content, writes);
  }

  // A reader gets the new artifact by its id or by none; it is lost exactly when the checkpoint published again is
  // the oldest of a full list.
  lemma {:induction false} ActiveLostExactly(key: Naming, s: State, pointer: Pointer, content: string,
                                             id: Option<string>)
    requires Distinct(key) && Shape(key, s) && pointer.r2Key == key(pointer.Id())
    ensures Read(After(s, pointer, content, 4), id) ==
            if id.Some? && id.value !in ["", pointer.Id()] then NotFound
            else if |s.history| == RETENTION && s.history[2].Id() == pointer.Id() then Missing
            else Artifact(pointer, content)
  {
    BucketAfter(s, pointer, content, 4);
  }

  datatype Publication = Publication(pointer: Pointer, content: string, writes: nat)

  function Run(s: State, publications: seq<Publication>): State {
    if publications == [] then s
    else
      var last := publications[|publications| - 1];
      After(Run(s, publications[..|publications| - 1]), last.pointer, last.content, last.writes)
  }

  ghost predicate Fresh(key: Naming, publications: seq<Publication>) {
    && (forall p | p in publications :: p.pointer.r2Key == key(p.pointer.Id()))
    && (forall i, j | 0 <= i < j < |publications| :: publications[i].pointer.Id() != publications[j].pointer.Id())
  }

  ghost predicate Published(key: Naming, s: State, publications: seq<Publication>) {
    && Shape(key, s) && Live(s)
    && forall p | p in s.history :: exists q :: q in publications && q.pointer == p
  }

  lemma PublishedStep(key: Naming, s: State, front: seq<Publication>, last: Publication)
    requires Distinct(key) && Published(key, s, front) && last.pointer.r2Key == key(last.pointer.Id())
    requires forall p | p in front :: p.pointer.Id() != last.pointer.Id()
    ensures Published(key, After(s, last.pointer, last.content, last.writes), front + [last])
  {
    var later := After(s, last.pointer, last.content, last.writes);
    LiveKept(key, s, last.pointer, last.content, last.writes);
    ShapeKept(key, s, last.pointer, last.content, last.writes);
    HistoryAfter(s, last.pointer, last.content, last.writes);
    forall p | p in later.history ensures exists q :: q in front + [last] && q.pointer == p {
      if p == last.pointer {
        assert last in front + [last];
      } else {
        assert p in s.history;
        var q :| q in front && q.pointer == p;
        assert q in front + [last];
      }
    }
  }

  // Under fresh ids, whatever crashes happened on the way, everything named can be read.
  lemma {:induction false} CrashesKeepLive(key: Naming, bucket: map<string, string>, publications: seq<Publication>)
    requires Distinct(key) && Fresh(key, publications)
    ensures Published(key, Run(State(None, [], bucket), publications), publications)
  {
    if publications != [] {
      var (front, last) := (publications[..|publications| - 1], publications[|publications| - 1]);
      assert publications == front + [last];
      CrashesKeepLive(key, bucket, front);
      PublishedStep(key, Run(State(None, [], bucket), front), front, last);
    }
  }

  /******* What readers get *******/

  // The last publication that lived to write the pointer.
  function Latest(publications: seq<Publication>): Option<Publication> {
    if publications == [] then None
    else
      var n := |publications| - 1;
      if publications[n].writes >= 2 then Some(publications[n]) else Latest(publications[..n])
  }

  lemma {:induction false} LatestMember(publications: seq<Publication>)
    ensures Latest(publications).Some? ==> Latest(publications).value in publications
  {
    if publications != [] {
      LatestMember(publications[..|publications| - 1]);
    }
  }

  // Pointer and artifact are those of this publication.
  ghost predicate Shows(s: State, latest: Option<Publication>) {
    match latest
    case None => s.active.None?
    case Some(p) =>
      s.active == Some(p.pointer) && p.pointer.r2Key in s.bucket && s.bucket[p.pointer.r2Key] == p.content
  }

  lemma ShowsStep(key: Naming, s: State, latest: Option<Publication>, last: Publication)
    requires Distinct(key) && Shape(key, s) && !Listed(s.history, last.pointer.Id()) && Shows(s, latest)
    requires last.pointer.r2Key == key(last.pointer.Id())
    requires latest.Some? ==> latest.value.pointer.r2Key == key(latest.value.pointer.Id())
    requires latest.Some? ==> latest.value.pointer.Id() != last.pointer.Id()
    ensures Shows(After(s, last.pointer, last.content, last.writes), if last.writes >= 2 then Some(last) else latest)
  {
    BucketAfter(s, last.pointer, last.content, last.writes);
    if |s.history| == RETENTION {
      assert s.history[2] in s.history;
    }
  }

  lemma {:induction false} RunShows(key: Naming, bucket: map<string, string>, publications: seq<Publication>)
    requires Distinct(key) && Fresh(key, publications)
    ensures Shows(Run(State(None, [], bucket), publications), Latest(publications))
  {
    if publications != [] {
      var (front, last) := (publications[..|publications| - 1], publications[|publications| - 1]);
      Lists.FrontAndLast(publications);
      FreshLast(key, front, last);
      RunShows(key, bucket, front);
      CrashesKeepLive(key, bucket, front);
      RunShowsStep(key, Run(State(None, [], bucket), front), front, last);
    }
  }

  lemma RunShowsStep(key: Naming, s: State, front: seq<Publication>, last: Publication)
    requires Distinct(key) && Fresh(key, front + [last]) && Published(key, s, front) && Shows(s, Latest(front))
    ensures Shows(After(s, last.pointer, last.content, last.writes),
                  if last.writes >= 2 then Some(last) else Latest(front))
  {
    LatestDiffers(key, front, last);
    NewToList(key, s, front, last);
    FreshLast(key, front, last);
    ShowsStep(key, s, Latest(front), last);
  }

  lemma LatestDiffers(key: Naming, front: seq<Publication>, last: Publication)
    requires Fresh(key, front + [last])
    ensures Latest(front).Some? ==>
      var p := Latest(front).value.pointer;
      p.Id() != last.pointer.Id() && p.r2Key == key(p.Id())
  {
    FreshLast(key, front, last);
    LatestMember(front);
  }

  lemma NewToList(key: Naming, s: State, front: seq<Publication>, last: Publication)
    requires Fresh(key, front + [last]) && Published(key, s, front)
    ensures !Listed(s.history, last.pointer.Id())
  {
    FreshLast(key, front, last);
    forall p | p in s.history ensures p.Id() != last.pointer.Id() {
      var q :| q in front && q.pointer == p;
    }
  }

  lemma FreshLast(key: Naming, front: seq<Publication>, last: Publication)
    requires Fresh(key, front + [last])
    ensures Fresh(key, front) && last.pointer.r2Key == key(last.pointer.Id())
    ensures forall p | p in front :: p.pointer.Id() != last.pointer.Id() && p.pointer.r2Key == key(p.pointer.Id())
  {
    var all := front + [last];
    assert last in all && forall i | 0 <= i < |front| :: all[i] == front[i];
    forall p | p in front ensures p.pointer.Id() != last.pointer.Id() && p.pointer.r2Key == key(p.pointer.Id()) {
      var i :| 0 <= i < |front| && front[i] == p;
      assert all[i] == p && all[|front|] == last && p in all;
    }
  }

  // After fresh publications with crashes anywhere, a reader without an id or with that of the last publication that
  // lived to write the pointer gets that publication's artifact; with another id, or before there is one, nothing.
  lemma ReadLatest(key: Naming, bucket: map<string, string>, publications: seq<Publication>, id: Option<string>)
    requires Distinct(key) && Fresh(key, publications)
    ensures var latest := Latest(publications);
      Read(Run(State(None, [], bucket), publications), id) ==
      if latest.None? || (id.Some? && id.value != "" && id.value != latest.value.pointer.metadata.checkpointId)
      then NotFound
      else Artifact(latest.value.pointer, latest.value.content)
  {
    RunShows(key, bucket, publications);
  }

  /******* Repeated publications *******/

  // The publication lives to delete an artifact, and its checkpoint is on a full list already.
  predicate DropsListed(s: State, p: Publication) {
    p.writes >= RETENTION + 1 && |s.history| == RETENTION && Listed(s.history, p.pointer.Id())
  }

  // Everything named can be read after each single write of all of these publications.
  ghost predicate AlwaysLive(s: State, publications: seq<Publication>) {
    forall i, writes: nat | 0 <= i < |publications| && writes <= publications[i].writes ::
      Live(After(Run(s, publications[..i]), publications[i].pointer, publications[i].content, writes))
  }

  lemma {:induction false} RunShape(key: Naming, bucket: map<string, string>, publications: seq<Publication>)
    requires forall p | p in publications :: p.pointer.r2Key == key(p.pointer.Id())
    ensures Shape(key, Run(State(None, [], bucket), publications))
  {
    if publications != [] {
      var (front, last) := (publications[..|publications| - 1], publications[|publications| - 1]);
      assert last in publications;
      RunShape(key, bucket, front);
      ShapeKept(key, Run(State(None, [], bucket), front), last.pointer, last.content, last.writes);
    }
  }

  lemma HistoryNames(s: State, pointer: Pointer, content: string, writes: nat)
    requires |s.history| <= RETENTION
    ensures var history := After(s, pointer, content, writes).history;
      |history| <= RETENTION && forall p | p in history :: p == pointer || p in s.history
  {
    OthersFilter(s.history, pointer.Id());
  }

  lemma LiveEarly(key: Naming, s: State, pointer: Pointer, content: string, writes: nat)
    requires Shape(key, s) && Live(s) && pointer.r2Key == key(pointer.Id()) && writes <= RETENTION
    ensures Live(After(s, pointer, content, writes))
  {
    BucketAfter(s, pointer, content, writes);
    HistoryNames(s, pointer, content, writes);
    var later := After(s, pointer, content, writes);
    forall i | 0 <= i < |later.history| ensures later.history[i].r2Key in later.bucket {
      assert later.history[i] in later.history;
    }
  }

  lemma LiveThrough(key: Naming, s: State, p: Publication, writes: nat)
    requires Distinct(key) && Shape(key, s) && Live(s) && p.pointer.r2Key == key(p.pointer.Id())
    requires !DropsListed(s, p) && writes <= p.writes
    ensures Live(After(s, p.pointer, p.content, writes))
  {
    if writes <= RETENTION {
      LiveEarly(key, s, p.pointer, p.content, writes);
    } else {
      LiveKept(key, s, p.pointer, p.content, writes);
    }
  }

  lemma {:induction false} RunLive(key: Naming, bucket: map<string, string>, publications: seq<Publication>)
    requires Distinct(key) && forall p | p in publications :: p.pointer.r2Key == key(p.pointer.Id())
    requires forall i | 0 <= i < |publications| ::
      !DropsListed(Run(State(None, [], bucket), publications[..i]), publications[i])
    ensures Live(Run(State(None, [], bucket), publications))
  {
    if publications != [] {
      var n := |publications| - 1;
      var (front, last) := (publications[..n], publications[n]);
      assert last in publications && forall p | p in front :: p in publications;
      forall i | 0 <= i < n ensures !DropsListed(Run(State(None, [], bucket), front[..i]), front[i]) {
        assert front[..i] == publications[..i];
      }
      RunLive(key, bucket, front);
      RunShape(key, bucket, front);
      LiveThrough(key, Run(State(None, [], bucket), front), last, last.writes);
    }
  }

  // For every list of publications, repeated and interrupted ones included: everything named can be read at every
  // point if and only if none of them gets to its deletion with a checkpoint that a full list holds at that moment.
  lemma AlwaysLiveExactly(key: Naming, bucket: map<string, string>, publications: seq<Publication>)
    requires Distinct(key) && forall p | p in publications :: p.pointer.r2Key == key(p.pointer.Id())
    ensures AlwaysLive(State(None, [], bucket), publications) <==>
      forall i | 0 <= i < |publications| ::
        !DropsListed(Run(State(None, [], bucket), publications[..i]), publications[i])
  {
    var start := State(None, [], bucket);
    if i :| 0 <= i < |publications| && DropsListed(Run(start, publications[..i]), publications[i]) {
      LostAt(key, bucket, publications, i);
    } else {
      forall i, writes: nat | 0 <= i < |publications| && writes <= publications[i].writes
        ensures Live(After(Run(start, publications[..i]), publications[i].pointer, publications[i].content, writes))
      {
        LiveAt(key, bucket, publications, i, writes);
      }
    }
  }

  lemma LostAt(key: Naming, bucket: map<string, string>, publications: seq<Publication>, i: nat)
    requires forall p | p in publications :: p.pointer.r2Key == key(p.pointer.Id())
    requires i < |publications| && DropsListed(Run(State(None, [], bucket), publications[..i]), publications[i])
    ensures !AlwaysLive(State(None, [], bucket), publications)
  {
    var (s, p) := (Run(State(None, [], bucket), publications[..i]), publications[i]);
    RunShape(key, bucket, publications[..i]);
    FullListLoses(key, s, p.pointer, p.content, p.writes);
    assert !Live(After(s, p.pointer, p.content, p.writes));
  }

  lemma LiveAt(key: Naming, bucket: map<string, string>, publications: seq<Publication>, i: nat, writes: nat)
    requires Distinct(key) && forall p | p in publications :: p.pointer.r2Key == key(p.pointer.Id())
    requires forall i | 0 <= i < |publications| ::
      !DropsListed(Run(State(None, [], bucket), publications[..i]), publications[i])
    requires i < |publications| && writes <= publications[i].writes
    ensures var p := publications[i];
      Live(After(Run(State(None, [], bucket), publications[..i]), p.pointer, p.content, writes))
  {
    var front := publications[..i];
    forall j | 0 <= j < i ensures !DropsListed(Run(State(None, [], bucket), front[..j]), front[j]) {
      assert front[..j] == publications[..j];
    }
    RunLive(key, bucket, front);
    RunShape(key, bucket, front);
    LiveThrough(key, Run(State(None, [], bucket), front), publications[i], writes);
  }

  // The retry of a publication that died: nothing is lost if and only if it died before the list was written, or the
  // list had room for more than this checkpoint.
  lemma RetryExactly(key: Naming, s: State, p: Publication, content: string, writes: nat)
    requires Distinct(key) && Shape(key, s) && Live(s) && p.pointer.r2Key == key(p.pointer.Id())
    requires !Listed(s.history, p.pointer.Id()) && writes >= RETENTION + 1
    ensures Live(After(After(s, p.pointer, p.content, p.writes), p.pointer, content, writes)) <==>
            p.writes < RETENTION || |s.history| < RETENTION - 1
  {
    var later := After(s, p.pointer, p.content, p.writes);
    LiveKept(key, s, p.pointer, p.content, p.writes);
    ShapeKept(key, s, p.pointer, p.content, p.writes);
    HistoryAfter(s, p.pointer, p.content, p.writes);
    if p.writes >= RETENTION {
      assert later.history[0] == p.pointer;
    }
    if |later.history| == RETENTION && Listed(later.history, p.pointer.Id()) {
      FullListLoses(key, later, p.pointer, content, writes);
    } else {
      LiveKept(key, later, p.pointer, content, writes);
    }
  }

  // Objects that no publication names are not touched, crash or not.
  ghost predicate Unnamed(s: State, name: string) {
    |s.history| <= RETENTION && forall p | p in s.history :: p.r2Key != name
  }

  lemma UntouchedStep(s: State, last: Publication, name: string)
    requires Unnamed(s, name) && last.pointer.r2Key != name
    ensures var later := After(s, last.pointer, last.content, last.writes);
      && Unnamed(later, name)
      && (name in later.bucket <==> name in s.bucket)
      && (name in s.bucket ==> later.bucket[name] == s.bucket[name])
  {
    BucketAfter(s, last.pointer, last.content, last.writes);
    HistoryNames(s, last.pointer, last.content, last.writes);
  }

  lemma {:induction false} OthersUntouched(s: State, publications: seq<Publication>, name: string)
    requires Unnamed(s, name) && forall p | p in publications :: p.pointer.r2Key != name
    ensures var later := Run(s, publications);
      && Unnamed(later, name)
      && (name in later.bucket <==> name in s.bucket)
      && (name in s.bucket ==> later.bucket[name] == s.bucket[name])
  {
    if publications != [] {
      var (front, last) := (publications[..|publications| - 1], publications[|publications| - 1]);
      assert last in publications && forall p | p in front :: p in publications;
      OthersUntouched(s, front, name);
      UntouchedStep(Run(s, front), last, name);
    }
  }

  function Newest(publications: seq<Publication>): seq<Publication> {
    if publications == [] then []
    else Next(Newest(publications[..|publications| - 1]), publications[|publications| - 1])
  }

  function Next(kept: seq<Publication>, last: Publication): seq<Publication> {
    [last] + if |kept| == RETENTION then kept[..RETENTION - 1] else kept
  }

  function Pointers(publications: seq<Publication>): seq<Pointer> {
    seq(|publications|, i requires 0 <= i < |publications| => publications[i].pointer)
  }

  ghost predicate Complete(publications: seq<Publication>) {
    forall i | 0 <= i < |publications| :: publications[i].writes >= RETENTION + 1
  }

  // What the bucket held at the start and, besides, the artifacts of `kept`.
  function Filled(before: map<string, string>, kept: seq<Publication>): map<string, string> {
    if kept == [] then before else Filled(before, kept[1..])[kept[0].pointer.r2Key := kept[0].content]
  }

  lemma FilledWithoutOldest(before: map<string, string>, kept: seq<Publication>)
    requires |kept| == RETENTION && kept[2].pointer.r2Key !in before
    requires forall i, j | 0 <= i < j < |kept| :: kept[i].pointer.r2Key != kept[j].pointer.r2Key
    ensures Filled(before, kept[..2]) == Filled(before, kept) - {kept[2].pointer.r2Key}
  {
    var (a, b, c) := (kept[0], kept[1], kept[2]);
    assert kept[..2] == [a, b] && [a, b][1..] == [b] && [b][1..] == [];
    assert kept[1..] == [b, c] && [b, c][1..] == [c] && [c][1..] == [];
    assert Filled(before, [b]) == before[b.pointer.r2Key := b.content];
    assert Filled(before, [c]) == before[c.pointer.r2Key := c.content];
    assert Filled(before, [b, c]) == Filled(before, [c])[b.pointer.r2Key := b.content];
  }

  lemma FreshStep(key: Naming, kept: seq<Publication>, last: Publication)
    requires Distinct(key) && Fresh(key, kept + [last])
    ensures Fresh(key, kept) && last.pointer.r2Key == key(last.pointer.Id())
    ensures forall p | p in kept :: p.pointer.r2Key != last.pointer.r2Key && p.pointer.Id() != last.pointer.Id()
    ensures forall i, j | 0 <= i < j < |kept| :: kept[i].pointer.r2Key != kept[j].pointer.r2Key
  {
    var all := kept + [last];
    assert all[|kept|] == last && last in all;
    assert forall i | 0 <= i < |kept| :: all[i] == kept[i] && kept[i] in all;
  }

  lemma FreshNewest(key: Naming, front: seq<Publication>, last: Publication)
    requires Fresh(key, front + [last])
    ensures Fresh(key, Newest(front) + [last])
  {
    var all := front + [last];
    assert all[|front|] == last && last in all;
    assert forall i | 0 <= i < |front| :: all[i] == front[i] && front[i] in all;
    NewestMembers(key, front);
  }

  lemma FilledNext(before: map<string, string>, kept: seq<Publication>, last: Publication)
    requires |kept| <= RETENTION && forall p | p in kept :: p.pointer.r2Key !in before
    requires forall p | p in kept :: p.pointer.r2Key != last.pointer.r2Key
    requires forall i, j | 0 <= i < j < |kept| :: kept[i].pointer.r2Key != kept[j].pointer.r2Key
    ensures var added := Filled(before, kept)[last.pointer.r2Key := last.content];
      Filled(before, Next(kept, last)) == if |kept| < RETENTION then added else added - {kept[2].pointer.r2Key}
  {
    var next := Next(kept, last);
    if |kept| == RETENTION {
      assert kept[2] in kept;
      FilledWithoutOldest(before, kept);
      assert next[1..] == kept[..2];
    } else {
      assert next[1..] == kept;
    }
  }

  lemma PointersNext(kept: seq<Publication>, last: Publication)
    requires |kept| <= RETENTION
    ensures var history := Pointers(kept);
      Pointers(Next(kept, last)) ==
      if |kept| < RETENTION then [last.pointer] + history else [last.pointer, history[0], history[1]]
  {
  }

  lemma NewestStep(key: Naming, before: map<string, string>, s: State, kept: seq<Publication>, last: Publication)
    requires Distinct(key) && Fresh(key, kept + [last]) && last.writes >= RETENTION + 1
    requires forall p | p in kept + [last] :: p.pointer.r2Key !in before
    requires |kept| <= RETENTION && s.history == Pointers(kept) && s.bucket == Filled(before, kept)
    ensures var later := After(s, last.pointer, last.content, last.writes);
      && later.history == Pointers(Next(kept, last)) && later.bucket == Filled(before, Next(kept, last))
      && later.active == Some(last.pointer)
  {
    FreshStep(key, kept, last);
    assert forall p | p in kept :: p in kept + [last];
    FilledNext(before, kept, last);
    PointersNext(kept, last);
    BucketAfter(s, last.pointer, last.content, last.writes);
    assert !Listed(s.history, last.pointer.Id());
    HistoryAfter(s, last.pointer, last.content, last.writes);
  }

  // The list is the newest three, newest first, the pointer is the newest, and the bucket holds exactly their
  // artifacts besides what it held at the start.
  ghost predicate Tidy(before: map<string, string>, s: State, publications: seq<Publication>) {
    && s.history == Pointers(Newest(publications)) && s.bucket == Filled(before, Newest(publications))
    && s.active == if publications == [] then None else Some(publications[|publications| - 1].pointer)
  }

  lemma TidyStep(key: Naming, before: map<string, string>, s: State, front: seq<Publication>, last: Publication)
    requires Distinct(key) && Fresh(key, front + [last]) && last.writes >= RETENTION + 1
    requires forall p | p in front + [last] :: p.pointer.r2Key !in before
    requires Tidy(before, s, front)
    ensures Tidy(before, After(s, last.pointer, last.content, last.writes), front + [last])
  {
    NewestMembers(key, front);
    FreshNewest(key, front, last);
    assert forall p | p in Newest(front) + [last] :: p in front + [last];
    NewestStep(key, before, s, Newest(front), last);
    TidyNext(before, After(s, last.pointer, last.content, last.writes), front, last);
  }

  lemma TidyNext(before: map<string, string>, later: State, front: seq<Publication>, last: Publication)
    requires var next := Next(Newest(front), last);
      later.history == Pointers(next) && later.bucket == Filled(before, next) && later.active == Some(last.pointer)
    ensures Tidy(before, later, front + [last])
  {
    assert (front + [last])[..|front|] == front;
  }

  // Uninterrupted publications of fresh checkpoints.
  lemma {:induction false} NewestThree(key: Naming, before: map<string, string>, publications: seq<Publication>)
    requires Distinct(key) && Fresh(key, publications) && Complete(publications)
    requires forall p | p in publications :: p.pointer.r2Key !in before
    ensures Tidy(before, Run(State(None, [], before), publications), publications)
  {
    if publications != [] {
      var (front, last) := (publications[..|publications| - 1], publications[|publications| - 1]);
      assert publications == front + [last] && last in publications;
      FreshStep(key, front, last);
      assert forall p | p in front :: p in publications;
      NewestThree(key, before, front);
      TidyStep(key, before, Run(State(None, [], before), front), front, last);
    }
  }

  lemma {:induction false} NewestMembers(key: Naming, publications: seq<Publication>)
    ensures |Newest(publications)| == if |publications| < 3 then |publications| else 3
    ensures forall i | 0 <= i < |Newest(publications)| ::
      Newest(publications)[i] == publications[|publications| - 1 - i] && Newest(publications)[i] in publications
    ensures Fresh(key, publications) ==> Fresh(key, Newest(publications))
  {
    if publications != [] {
      NewestMembers(key, publications[..|publications| - 1]);
    }
  }

  // Publishing one of the three listed generations again, as a retried export does, loses an artifact that the
  // pointer or the list still names.
  lemma RepublishingLoses(key: Naming, publications: seq<Publication>, again: Publication)
    requires Distinct(key) && Fresh(key, publications) && Complete(publications) && |publications| >= RETENTION
    requires again.pointer in Pointers(Newest(publications)) && again.writes >= RETENTION + 1
    ensures !Live(Run(State(None, [], map[]), publications + [again]))
  {
    NewestThree(key, map[], publications);
    NewestMembers(key, publications);
    CrashesKeepLive(key, map[], publications);
    assert (publications + [again])[..|publications|] == publications;
    ListedAgain(key, Run(State(None, [], map[]), publications), again);
  }

  lemma ListedAgain(key: Naming, s: State, again: Publication)
    requires Shape(key, s) && |s.history| == RETENTION && again.pointer in s.history
    requires again.writes >= RETENTION + 1
    ensures !Live(After(s, again.pointer, again.content, again.writes))
  {
    assert Listed(s.history, again.pointer.Id());
    FullListLoses(key, s, again.pointer, again.content, again.writes);
  }

  /******* With the keys in use *******/

  lemma TenantLiveExactly(tenantId: string, s: State, pointer: Pointer, content: string)
    requires Shape(TenantKey(tenantId), s) && Live(s) && pointer.r2Key == CheckpointKey(tenantId, pointer.Id())
    ensures (forall writes: nat :: Live(After(s, pointer, content, writes))) <==>
            |s.history| < RETENTION || !Listed(s.history, pointer.Id())
  {
    TenantNaming(tenantId);
    LiveExactly(TenantKey(tenantId), s, pointer, content);
  }

  // Fresh publications of one tenant, with crashes: what pointer and list name is in the bucket.
  lemma TenantCrashesKeepLive(tenantId: string, bucket: map<string, string>, publications: seq<Publication>)
    requires Fresh(TenantKey(tenantId), publications)
    ensures Published(TenantKey(tenantId), Run(State(None, [], bucket), publications), publications)
  {
    TenantNaming(tenantId);
    CrashesKeepLive(TenantKey(tenantId), bucket, publications);
  }

  lemma TenantNewestThree(tenantId: string, before: map<string, string>, publications: seq<Publication>)
    requires Fresh(TenantKey(tenantId), publications) && Complete(publications)
    requires forall p | p in publications :: p.pointer.r2Key !in before
    ensures Tidy(before, Run(State(None, [], before), publications), publications)
  {
    TenantNaming(tenantId);
    NewestThree(TenantKey(tenantId), before, publications);
  }

  lemma TenantReadLatest(tenantId: string, bucket: map<string, string>, publications: seq<Publication>,
                         id: Option<string>)
    requires Fresh(TenantKey(tenantId), publications)
    ensures var latest := Latest(publications);
      Read(Run(State(None, [], bucket), publications), id) ==
      if latest.None? || (id.Some? && id.value != "" && id.value != latest.value.pointer.metadata.checkpointId)
      then NotFound
      else Artifact(latest.value.pointer, latest.value.content)
  {
    TenantNaming(tenantId);
    ReadLatest(TenantKey(tenantId), bucket, publications, id);
  }

  lemma TenantRepublishingLoses(tenantId: string, publications: seq<Publication>, again: Publication)
    requires Fresh(TenantKey(tenantId), publications) && Complete(publications) && |publications| >= RETENTION
    requires again.pointer in Pointers(Newest(publications)) && again.writes >= RETENTION + 1
    ensures !Live(Run(State(None, [], map[]), publications + [again]))
  {
    TenantNaming(tenantId);
    RepublishingLoses(TenantKey(tenantId), publications, again);
  }

  lemma TenantAlwaysLiveExactly(tenantId: string, bucket: map<string, string>, publications: seq<Publication>)
    requires forall p | p in publications :: p.pointer.r2Key == CheckpointKey(tenantId, p.pointer.Id())
    ensures AlwaysLive(State(None, [], bucket), publications) <==>
      forall i | 0 <= i < |publications| ::
        !DropsListed(Run(State(None, [], bucket), publications[..i]), publications[i])
  {
    TenantNaming(tenantId);
    AlwaysLiveExactly(TenantKey(tenantId), bucket, publications);
  }

  // All tenants and all staged bodies share one bucket: one tenant's publications, repeated and interrupted ones
  // included, touch neither another tenant's artifacts nor any staged body.
  lemma TenantsApart(tenantId: string, bucket: map<string, string>, publications: seq<Publication>, other: string,
                     id: string)
    requires forall p | p in publications :: p.pointer.r2Key == CheckpointKey(tenantId, p.pointer.Id())
    ensures var later := Run(State(None, [], bucket), publications).bucket;
      && (other != tenantId ==> SameAt(bucket, later, CheckpointKey(other, id)))
      && SameAt(bucket, later, Runtime.BodyRef(other, id))
  {
    forall p | p in publications
      ensures p.pointer.r2Key != Runtime.BodyRef(other, id)
      ensures other != tenantId ==> p.pointer.r2Key != CheckpointKey(other, id)
    {
      CheckpointKeysApart(tenantId, p.pointer.Id(), other, id);
    }
    OthersUntouched(State(None, [], bucket), publications, Runtime.BodyRef(other, id));
    if other != tenantId {
      OthersUntouched(State(None, [], bucket), publications, CheckpointKey(other, id));
    }
  }

  predicate SameAt(before: map<string, string>, after: map<string, string>, name: string) {
    (name in before <==> name in after) && (name in before ==> before[name] == after[name])
  }
}
