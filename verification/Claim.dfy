/** Claim identity: the byte stream that is hashed into a claim id or a supersession id, and the validity
    intervals of claims. Text stands for its UTF-8 bytes. */
module Claim {
  import Characters
  import Lists
  import opened Wrappers
  import opened Utf8

  type Bytes = seq<byte>

  // No Rust slice is longer than isize::MAX.
  type Text = bytes: Bytes | |bytes| < 0x8000_0000_0000_0000

  type I64 = n: int | -0x8000_0000_0000_0000 <= n < 0x8000_0000_0000_0000

  const I64_MIN: I64 := -0x8000_0000_0000_0000

  datatype Scope = Scope(tenantId: Text, userId: Text, projectId: Option<Text>, conversationId: Option<Text>,
                         sessionId: Option<Text>)

  datatype EvidenceRelation = Supports | Refutes | QualifiesClaim

  datatype Evidence = Evidence(eventId: Text, relation: EvidenceRelation, excerpt: Option<Text>)

  // What a claim id stands for.
  datatype Identity = Identity(scope: Scope, subject: Text, predicate_: Text, value: Text, validFrom: Option<I64>,
                               validTo: Option<I64>, evidence: seq<Evidence>)

  datatype CreateRequest = CreateRequest(identity: Identity, confidence: real, recordedAt: I64)

  datatype SupersessionRelation = Supersedes | Recants | Qualifies | Reaffirms

  datatype Supersession = Supersession(original: Text, successor: Option<Text>, relation: SupersessionRelation,
                                       effectiveAt: I64)

  datatype SupersedeRequest = SupersedeRequest(supersession: Supersession, scope: Scope, recordedAt: I64,
                                               reason: Option<Text>)

  function Ascii(s: string): (bytes: Bytes)
    ensures |bytes| == |s|
  {
    seq(|s|, i requires 0 <= i < |s| => (s[i] as int % 256) as byte)
  }

  const CLAIM_DOMAIN := Ascii("celiums-memory/claim-id/v1")
  const SUPERSESSION_DOMAIN := Ascii("celiums-memory/claim-supersession/v1")

  function RelationText(relation: EvidenceRelation): Text {
    match relation
    case Supports => Ascii("supports")
    case Refutes => Ascii("refutes")
    case QualifiesClaim => Ascii("qualifies")
  }

  function ParseRelation(text: Text): Option<EvidenceRelation> {
    if text == Ascii("supports") then Some(Supports)
    else if text == Ascii("refutes") then Some(Refutes)
    else if text == Ascii("qualifies") then Some(QualifiesClaim)
    else None
  }

  function SupersessionText(relation: SupersessionRelation): Text {
    match relation
    case Supersedes => Ascii("supersedes")
    case Recants => Ascii("recants")
    case Qualifies => Ascii("qualifies")
    case Reaffirms => Ascii("reaffirms")
  }

  function ParseSupersession(text: Text): Option<SupersessionRelation> {
    if text == Ascii("supersedes") then Some(Supersedes)
    else if text == Ascii("recants") then Some(Recants)
    else if text == Ascii("qualifies") then Some(Qualifies)
    else if text == Ascii("reaffirms") then Some(Reaffirms)
    else None
  }

  lemma RelationsParse(relation: EvidenceRelation, other: SupersessionRelation)
    ensures ParseRelation(RelationText(relation)) == Some(relation)
    ensures ParseSupersession(SupersessionText(other)) == Some(other)
  {
    assert |Ascii("supports")| == 8 && |Ascii("refutes")| == 7 && |Ascii("qualifies")| == 9;
    assert |Ascii("supersedes")| == 10 && |Ascii("recants")| == 7;
    assert Ascii("qualifies")[0] != Ascii("reaffirms")[0];
  }

  // Little-endian numbers of `width` bytes.
  function Le(n: nat, width: nat): (bytes: Bytes)
    ensures |bytes| == width
    decreases n, width
  {
    if width == 0 then [] else [(n % 256) as byte] + Le(n / 256, width - 1)
  }

  function FromLe(bytes: Bytes): nat {
    if bytes == [] then 0 else bytes[0] as nat + 256 * FromLe(bytes[1..])
  }

  function Power(width: nat): nat {
    if width == 0 then 1 else 256 * Power(width - 1)
  }

  lemma {:induction false} FromLeLe(n: nat, width: nat)
    requires n < Power(width)
    ensures FromLe(Le(n, width)) == n
  {
    if width != 0 {
      FromLeLe(n / 256, width - 1);
      assert Le(n, width)[1..] == Le(n / 256, width - 1);
    }
  }

  lemma Power8()
    ensures Power(8) == 0x1_0000_0000_0000_0000
  {
    assert Power(2) == 0x1_0000;
    assert Power(4) == 0x1_0000_0000;
    assert Power(6) == 0x1_0000_0000_0000;
  }

  // Two's complement.
  function I64Bytes(n: I64): Text {
    Le(if n < 0 then n + 0x1_0000_0000_0000_0000 else n, 8)
  }

  function I64Value(bytes: Bytes): Option<I64> {
    var n := FromLe(bytes);
    if |bytes| != 8 || n >= 0x1_0000_0000_0000_0000 then None
    else Some(if n >= 0x8000_0000_0000_0000 then n - 0x1_0000_0000_0000_0000 else n)
  }

  lemma I64RoundTrip(n: I64)
    ensures I64Value(I64Bytes(n)) == Some(n)
  {
    Power8();
    FromLeLe(if n < 0 then n + 0x1_0000_0000_0000_0000 else n, 8);
  }

  // One length-prefixed field of the stream.
  datatype Field = Field(name: Text, value: Text)

  function FieldBytes(field: Field): Bytes {
    Le(|field.name|, 8) + field.name + Le(|field.value|, 8) + field.value
  }

  function Stream(fields: seq<Field>): Bytes {
    if fields == [] then [] else FieldBytes(fields[0]) + Stream(fields[1..])
  }

  function ReadBlock(bytes: Bytes): Option<(Text, Bytes)> {
    if |bytes| < 8 then None
    else
      var length := FromLe(bytes[..8]);
      if length >= 0x8000_0000_0000_0000 || |bytes| < 8 + length then None
      else Some((bytes[8..8 + length], bytes[8 + length..]))
  }

  function ReadStream(bytes: Bytes): Option<seq<Field>>
    decreases |bytes|
  {
    if bytes == [] then Some([])
    else
      match ReadBlock(bytes)
      case None => None
      case Some((name, rest)) =>
        match ReadBlock(rest)
        case None => None
        case Some((value, tail)) =>
          match ReadStream(tail)
          case None => None
          case Some(fields) => Some([Field(name, value)] + fields)
  }

  lemma BlockRoundTrip(text: Text, tail: Bytes)
    ensures ReadBlock(Le(|text|, 8) + text + tail) == Some((text, tail))
  {
    Power8();
    FromLeLe(|text|, 8);
    CutBlock(Le(|text|, 8), text, tail);
  }

  lemma CutBlock(head: Bytes, text: Bytes, tail: Bytes)
    ensures var bytes := head + text + tail;
      bytes[..|head|] == head && bytes[|head|..|head| + |text|] == text && bytes[|head| + |text|..] == tail
  {
  }

  // A stream of fields can be cut back into its fields in one way only.
  lemma {:induction false} StreamRoundTrip(fields: seq<Field>)
    ensures ReadStream(Stream(fields)) == Some(fields)
  {
    if fields != [] {
      var (f, tail) := (fields[0], Stream(fields[1..]));
      StreamRoundTrip(fields[1..]);
      FieldRoundTrip(f, tail);
      Lists.FirstAndRest(fields);
    }
  }

  lemma FieldRoundTrip(f: Field, tail: Bytes)
    requires ReadStream(tail).Some?
    ensures ReadStream(FieldBytes(f) + tail) == Some([f] + ReadStream(tail).value)
  {
    var (n, v) := (Le(|f.name|, 8), Le(|f.value|, 8));
    var rest := v + f.value + tail;
    Lists.Assoc(n + f.name + v, f.value, tail);
    Lists.Assoc(n + f.name, v, f.value + tail);
    Lists.Assoc(v, f.value, tail);
    assert FieldBytes(f) + tail == n + f.name + rest;
    BlockRoundTrip(f.name, rest);
    BlockRoundTrip(f.value, tail);
  }

  lemma {:induction false} StreamAppend(a: seq<Field>, b: seq<Field>)
    ensures Stream(a + b) == Stream(a) + Stream(b)
  {
    if a == [] {
      assert a + b == b;
    } else {
      StreamAppend(a[1..], b);
      Lists.ConsAppend(a, b);
      Lists.Assoc(FieldBytes(a[0]), Stream(a[1..]), Stream(b));
    }
  }

  // An optional value takes a presence field and, if there, a field of its own under the same name.
  function OptionalFields(name: string, value: Option<Text>): seq<Field>
    requires |name| < 100
  {
    match value
    case Some(text) => [Field(Ascii(name), [1]), Field(Ascii(name), text)]
    case None => [Field(Ascii(name), [0])]
  }

  function TimeText(time: Option<I64>): Option<Text> {
    if time.Some? then Some(I64Bytes(time.value)) else None
  }

  function ScopeFields(scope: Scope): seq<Field> {
    [Field(Ascii("tenant_id"), scope.tenantId), Field(Ascii("user_id"), scope.userId)]
    + OptionalFields("project_id", scope.projectId) + OptionalFields("conversation_id", scope.conversationId)
    + OptionalFields("session_id", scope.sessionId)
  }

  function PropertyFields(c: Identity): seq<Field> {
    [Field(Ascii("subject"), c.subject), Field(Ascii("predicate"), c.predicate_), Field(Ascii("value"), c.value)]
    + OptionalFields("valid_from_ms", TimeText(c.validFrom)) + OptionalFields("valid_to_ms", TimeText(c.validTo))
  }

  function OneEvidence(evidence: Evidence): seq<Field> {
    [Field(Ascii("event_id"), evidence.eventId), Field(Ascii("relation"), RelationText(evidence.relation))]
    + OptionalFields("excerpt", evidence.excerpt)
  }

  function EvidenceFields(evidence: seq<Evidence>): seq<Field> {
    if evidence == [] then [] else OneEvidence(evidence[0]) + EvidenceFields(evidence[1..])
  }

  function ClaimFields(c: Identity): seq<Field> {
    ScopeFields(c.scope) + PropertyFields(c) + EvidenceFields(c.evidence)
  }

  // What `ClaimId::derive` feeds to the hash.
  function ClaimPreimage(request: CreateRequest): Bytes {
    CLAIM_DOMAIN + Stream(ClaimFields(request.identity))
  }

  function SupersessionFields(s: Supersession): seq<Field> {
    [Field(Ascii("original_claim_id"), s.original)] + OptionalFields("successor_claim_id", s.successor)
    + [Field(Ascii("relation"), SupersessionText(s.relation)), Field(Ascii("effective_at_ms"), I64Bytes(s.effectiveAt))]
  }

  // What `ClaimSupersession::from_request` feeds to the hash.
  function SupersessionPreimage(request: SupersedeRequest): Bytes {
    SUPERSESSION_DOMAIN + Stream(SupersessionFields(request.supersession))
  }

  // The readers take one value off the front of a field list.
  type Reading<T> = Option<(T, seq<Field>)>

  function ReadText(fields: seq<Field>): Reading<Text> {
    if fields == [] then None else Some((fields[0].value, fields[1..]))
  }

  function ReadOptional(fields: seq<Field>): Reading<Option<Text>> {
    if fields == [] then None
    else if fields[0].value == [0] then Some((None, fields[1..]))
    else if |fields| >= 2 then Some((Some(fields[1].value), fields[2..]))
    else None
  }

  function ReadTime(fields: seq<Field>): Reading<Option<I64>> {
    match ReadOptional(fields)
    case None => None
    case Some((None, rest)) => Some((None, rest))
    case Some((Some(text), rest)) =>
      var time := I64Value(text);
      if time.Some? then Some((time, rest)) else None
  }

  function ReadScope(fields: seq<Field>): Reading<Scope> {
    match ReadText(fields) case None => None case Some((tenant, f1)) =>
    match ReadText(f1) case None => None case Some((user, f2)) =>
    match ReadOptional(f2) case None => None case Some((project, f3)) =>
    match ReadOptional(f3) case None => None case Some((conversation, f4)) =>
    match ReadOptional(f4) case None => None case Some((session, f5)) =>
    Some((Scope(tenant, user, project, conversation, session), f5))
  }

  function ReadProperty(fields: seq<Field>): Reading<(Text, Text, Text, Option<I64>, Option<I64>)> {
    match ReadText(fields) case None => None case Some((subject, f1)) =>
    match ReadText(f1) case None => None case Some((property, f2)) =>
    match ReadText(f2) case None => None case Some((value, f3)) =>
    match ReadTime(f3) case None => None case Some((from, f4)) =>
    match ReadTime(f4) case None => None case Some((to, f5)) =>
    Some(((subject, property, value, from, to), f5))
  }

  function ReadOneEvidence(fields: seq<Field>): Reading<Evidence> {
    match ReadText(fields) case None => None case Some((event, f1)) =>
    match ReadText(f1) case None => None case Some((relation, f2)) =>
    match ReadOptional(f2) case None => None case Some((excerpt, f3)) =>
    var parsed := ParseRelation(relation);
    if parsed.Some? then Some((Evidence(event, parsed.value, excerpt), f3)) else None
  }

  function ReadEvidence(fields: seq<Field>): Option<seq<Evidence>>
    decreases |fields|
  {
    if fields == [] then Some([])
    else
      match ReadOneEvidence(fields) case None => None case Some((first, rest)) =>
      match ReadEvidence(rest) case None => None case Some(others) =>
      Some([first] + others)
  }

  function ReadClaim(bytes: Bytes): Option<Identity> {
    if |bytes| < |CLAIM_DOMAIN| || bytes[..|CLAIM_DOMAIN|] != CLAIM_DOMAIN then None
    else
      match ReadStream(bytes[|CLAIM_DOMAIN|..]) case None => None case Some(fields) =>
      match ReadScope(fields) case None => None case Some((scope, f1)) =>
      match ReadProperty(f1) case None => None case Some(((subject, property, value, from, to), f2)) =>
      match ReadEvidence(f2) case None => None case Some(evidence) =>
      Some(Identity(scope, subject, property, value, from, to, evidence))
  }

  function ReadSupersession(bytes: Bytes): Option<Supersession> {
    if |bytes| < |SUPERSESSION_DOMAIN| || bytes[..|SUPERSESSION_DOMAIN|] != SUPERSESSION_DOMAIN then None
    else
      match ReadStream(bytes[|SUPERSESSION_DOMAIN|..]) case None => None case Some(fields) =>
      match ReadText(fields) case None => None case Some((original, f1)) =>
      match ReadOptional(f1) case None => None case Some((successor, f2)) =>
      match ReadText(f2) case None => None case Some((relation, f3)) =>
      match ReadText(f3) case None => None case Some((effective, f4)) =>
      var parsed := ParseSupersession(relation);
      var time := I64Value(effective);
      if parsed.Some? && time.Some? then Some(Supersession(original, successor, parsed.value, time.value)) else None
  }

  lemma OptionalRoundTrip(name: string, value: Option<Text>, tail: seq<Field>)
    requires |name| < 100
    ensures ReadOptional(OptionalFields(name, value) + tail) == Some((value, tail))
  {
    var fields := OptionalFields(name, value) + tail;
    match value
    case Some(text) =>
      assert fields[0].value == [1] && fields[1].value == text && fields[2..] == tail;
    case None =>
      assert fields[0].value == [0] && fields[1..] == tail;
  }

  lemma TimeRoundTrip(name: string, time: Option<I64>, tail: seq<Field>)
    requires |name| < 100
    ensures ReadTime(OptionalFields(name, TimeText(time)) + tail) == Some((time, tail))
  {
    OptionalRoundTrip(name, TimeText(time), tail);
    if time.Some? {
      I64RoundTrip(time.value);
    }
  }

  lemma TextRoundTrip(field: Field, tail: seq<Field>)
    ensures ReadText([field] + tail) == Some((field.value, tail))
  {
  }

  lemma ScopeRoundTrip(scope: Scope, tail: seq<Field>)
    ensures ReadScope(ScopeFields(scope) + tail) == Some((scope, tail))
  {
    var f4 := OptionalFields("session_id", scope.sessionId) + tail;
    var f3 := OptionalFields("conversation_id", scope.conversationId) + f4;
    var f2 := OptionalFields("project_id", scope.projectId) + f3;
    var user := Field(Ascii("user_id"), scope.userId);
    assert ScopeFields(scope) + tail == [Field(Ascii("tenant_id"), scope.tenantId)] + ([user] + f2);
    TextRoundTrip(Field(Ascii("tenant_id"), scope.tenantId), [user] + f2);
    TextRoundTrip(user, f2);
    OptionalRoundTrip("project_id", scope.projectId, f3);
    OptionalRoundTrip("conversation_id", scope.conversationId, f4);
    OptionalRoundTrip("session_id", scope.sessionId, tail);
  }

  lemma PropertyRoundTrip(c: Identity, tail: seq<Field>)
    ensures ReadProperty(PropertyFields(c) + tail) ==
            Some(((c.subject, c.predicate_, c.value, c.validFrom, c.validTo), tail))
  {
    var f4 := OptionalFields("valid_to_ms", TimeText(c.validTo)) + tail;
    var f3 := OptionalFields("valid_from_ms", TimeText(c.validFrom)) + f4;
    var (s, p, v) := (Field(Ascii("subject"), c.subject), Field(Ascii("predicate"), c.predicate_),
                      Field(Ascii("value"), c.value));
    assert PropertyFields(c) + tail == [s] + ([p] + ([v] + f3));
    TextRoundTrip(s, [p] + ([v] + f3));
    TextRoundTrip(p, [v] + f3);
    TextRoundTrip(v, f3);
    TimeRoundTrip("valid_from_ms", c.validFrom, f4);
    TimeRoundTrip("valid_to_ms", c.validTo, tail);
  }

  lemma OneEvidenceRoundTrip(evidence: Evidence, tail: seq<Field>)
    ensures ReadOneEvidence(OneEvidence(evidence) + tail) == Some((evidence, tail))
  {
    var f2 := OptionalFields("excerpt", evidence.excerpt) + tail;
    var (e, r) := (Field(Ascii("event_id"), evidence.eventId),
                   Field(Ascii("relation"), RelationText(evidence.relation)));
    assert OneEvidence(evidence) + tail == [e] + ([r] + f2);
    TextRoundTrip(e, [r] + f2);
    TextRoundTrip(r, f2);
    OptionalRoundTrip("excerpt", evidence.excerpt, tail);
    RelationsParse(evidence.relation, Recants);
  }

  lemma {:induction false} EvidenceRoundTrip(evidence: seq<Evidence>)
    ensures ReadEvidence(EvidenceFields(evidence)) == Some(evidence)
  {
    if evidence != [] {
      OneEvidenceRoundTrip(evidence[0], EvidenceFields(evidence[1..]));
      EvidenceRoundTrip(evidence[1..]);
      assert evidence == [evidence[0]] + evidence[1..];
    }
  }

  // A claim's identity can be read back from the bytes its id is the hash of.
  lemma ClaimRoundTrip(request: CreateRequest)
    ensures ReadClaim(ClaimPreimage(request)) == Some(request.identity)
  {
    var c := request.identity;
    var (f2, f1) := (EvidenceFields(c.evidence), PropertyFields(c) + EvidenceFields(c.evidence));
    var fields := ClaimFields(c);
    assert fields == ScopeFields(c.scope) + f1;
    assert ClaimPreimage(request)[|CLAIM_DOMAIN|..] == Stream(fields);
    StreamRoundTrip(fields);
    ScopeRoundTrip(c.scope, f1);
    PropertyRoundTrip(c, f2);
    EvidenceRoundTrip(c.evidence);
  }

  lemma SupersessionFieldsCut(s: Supersession)
    ensures var (r, e) := (Field(Ascii("relation"), SupersessionText(s.relation)),
                           Field(Ascii("effective_at_ms"), I64Bytes(s.effectiveAt)));
      SupersessionFields(s) == [Field(Ascii("original_claim_id"), s.original)]
                               + (OptionalFields("successor_claim_id", s.successor) + ([r] + ([e] + [])))
  {
  }

  lemma SupersessionRoundTrip(request: SupersedeRequest)
    ensures ReadSupersession(SupersessionPreimage(request)) == Some(request.supersession)
  {
    var s := request.supersession;
    var fields := SupersessionFields(s);
    var (o, r, e) := (Field(Ascii("original_claim_id"), s.original),
                      Field(Ascii("relation"), SupersessionText(s.relation)),
                      Field(Ascii("effective_at_ms"), I64Bytes(s.effectiveAt)));
    assert SupersessionPreimage(request)[|SUPERSESSION_DOMAIN|..] == Stream(fields);
    StreamRoundTrip(fields);
    SupersessionFieldsCut(s);
    TextRoundTrip(o, OptionalFields("successor_claim_id", s.successor) + ([r] + ([e] + [])));
    OptionalRoundTrip("successor_claim_id", s.successor, [r] + ([e] + []));
    TextRoundTrip(r, [e] + []);
    TextRoundTrip(e, []);
    RelationsParse(Supports, s.relation);
    I64RoundTrip(s.effectiveAt);
  }

  // The hashed bytes are equal exactly when the identities are: confidence and transaction time never matter,
  // everything else does.
  lemma ClaimPreimageInjective(a: CreateRequest, b: CreateRequest)
    ensures ClaimPreimage(a) == ClaimPreimage(b) <==> a.identity == b.identity
  {
    ClaimRoundTrip(a);
    ClaimRoundTrip(b);
  }

  lemma SupersessionPreimageInjective(a: SupersedeRequest, b: SupersedeRequest)
    ensures SupersessionPreimage(a) == SupersessionPreimage(b) <==> a.supersession == b.supersession
  {
    SupersessionRoundTrip(a);
    SupersessionRoundTrip(b);
  }

  // No claim id and supersession id come from the same bytes.
  lemma DomainsApart(a: CreateRequest, b: SupersedeRequest)
    ensures ClaimPreimage(a) != SupersessionPreimage(b)
  {
    assert ClaimPreimage(a)[21] == CLAIM_DOMAIN[21] && SupersessionPreimage(b)[21] == SUPERSESSION_DOMAIN[21];
    assert CLAIM_DOMAIN[21] == ('i' as int) as byte && SUPERSESSION_DOMAIN[21] == ('s' as int) as byte;
  }

  lemma EvidenceNext(start: seq<Field>, evidence: seq<Evidence>, i: nat)
    requires i < |evidence|
    ensures start + EvidenceFields(evidence[..i + 1]) ==
            start + EvidenceFields(evidence[..i]) + OneEvidence(evidence[i])
  {
    EvidenceAppend(evidence[..i], evidence[i]);
    assert evidence[..i] + [evidence[i]] == evidence[..i + 1];
  }

  lemma FieldAppended(domain: Bytes, fields: seq<Field>, f: Field, nameLength: Bytes, valueLength: Bytes)
    requires nameLength == Le(|f.name|, 8) && valueLength == Le(|f.value|, 8)
    ensures domain + Stream(fields + [f]) == domain + Stream(fields) + nameLength + f.name + valueLength + f.value
  {
    StreamAppend(fields, [f]);
    assert Stream([f]) == FieldBytes(f);
    var front := domain + Stream(fields);
    Lists.Assoc(domain, Stream(fields), FieldBytes(f));
    Lists.Assoc(front, nameLength + f.name + valueLength, f.value);
    Lists.Assoc(front, nameLength + f.name, valueLength);
    Lists.Assoc(front, nameLength, f.name);
  }

  lemma {:induction false} EvidenceAppend(a: seq<Evidence>, e: Evidence)
    ensures EvidenceFields(a + [e]) == EvidenceFields(a) + OneEvidence(e)
  {
    if a == [] {
      assert (a + [e])[1..] == [];
    } else {
      EvidenceAppend(a[1..], e);
      assert (a + [e])[1..] == a[1..] + [e];
    }
  }

  lemma Joined(start: seq<Field>, a: seq<Field>, b: seq<Field>, c: seq<Field>)
    ensures start + a + b + c == start + (a + b + c)
  {
  }

  /** The incremental hasher; what it is finalized into is the hash of `input`. */
  class Hasher {
    var input: Bytes
    ghost const domain: Bytes
    ghost var fields: seq<Field>

    ghost predicate Valid()
      reads this
    {
      input == domain + Stream(fields)
    }

    // A new hasher that has been fed the domain.
    constructor (domain: Bytes)
      ensures Valid() && fields == [] && this.domain == domain
    {
      this.domain := domain;
      input := domain;
      fields := [];
    }

    method Update(bytes: Bytes)
      modifies this`input
      ensures input == old(input) + bytes
    {
      input := input + bytes;
    }

    method HashField(name: Text, value: Text)
      requires Valid()
      modifies this
      ensures Valid() && fields == old(fields) + [Field(name, value)]
    {
      Update(Le(|name|, 8));
      Update(name);
      Update(Le(|value|, 8));
      Update(value);
      FieldAppended(domain, fields, Field(name, value), Le(|name|, 8), Le(|value|, 8));
      fields := fields + [Field(name, value)];
    }

    method HashOptionalText(name: string, value: Option<Text>)
      requires Valid() && |name| < 100
      modifies this
      ensures Valid() && fields == old(fields) + OptionalFields(name, value)
    {
      match value
      case Some(text) =>
        HashField(Ascii(name), [1]);
        HashField(Ascii(name), text);
      case None =>
        HashField(Ascii(name), [0]);
    }

    method HashOptionalI64(name: string, time: Option<I64>)
      requires Valid() && |name| < 100
      modifies this
      ensures Valid() && fields == old(fields) + OptionalFields(name, TimeText(time))
    {
      match time
      case Some(value) =>
        HashField(Ascii(name), [1]);
        HashField(Ascii(name), I64Bytes(value));
      case None =>
        HashField(Ascii(name), [0]);
    }

    method HashScope(scope: Scope)
      requires Valid()
      modifies this
      ensures Valid() && fields == old(fields) + ScopeFields(scope)
    {
      HashField(Ascii("tenant_id"), scope.tenantId);
      HashField(Ascii("user_id"), scope.userId);
      HashOptionalText("project_id", scope.projectId);
      HashOptionalText("conversation_id", scope.conversationId);
      HashOptionalText("session_id", scope.sessionId);
    }

    method HashProperty(c: Identity)
      requires Valid()
      modifies this
      ensures Valid() && fields == old(fields) + PropertyFields(c)
    {
      HashField(Ascii("subject"), c.subject);
      HashField(Ascii("predicate"), c.predicate_);
      HashField(Ascii("value"), c.value);
      HashOptionalI64("valid_from_ms", c.validFrom);
      HashOptionalI64("valid_to_ms", c.validTo);
    }

    method HashEvidence(evidence: Evidence)
      requires Valid()
      modifies this
      ensures Valid() && fields == old(fields) + OneEvidence(evidence)
    {
      HashField(Ascii("event_id"), evidence.eventId);
      HashField(Ascii("relation"), RelationText(evidence.relation));
      HashOptionalText("excerpt", evidence.excerpt);
    }

    method HashEvidenceList(evidence: seq<Evidence>)
      requires Valid()
      modifies this
      ensures Valid() && fields == old(fields) + EvidenceFields(evidence)
    {
      var i := 0;
      while i < |evidence|
        invariant 0 <= i <= |evidence|
        invariant Valid() && fields == old(fields) + EvidenceFields(evidence[..i])
      {
        HashEvidence(evidence[i]);
        EvidenceNext(old(fields), evidence, i);
        i := i + 1;
      }
      assert evidence[..i] == evidence;
    }

    method HashClaim(c: Identity)
      requires Valid()
      modifies this
      ensures Valid() && fields == old(fields) + ClaimFields(c)
    {
      HashScope(c.scope);
      HashProperty(c);
      HashEvidenceList(c.evidence);
      Joined(old(fields), ScopeFields(c.scope), PropertyFields(c), EvidenceFields(c.evidence));
    }
  }

  // The hash input of a claim, built step by step.
  method DeriveClaim(request: CreateRequest) returns (input: Bytes)
    ensures input == ClaimPreimage(request)
  {
    var hasher := new Hasher(CLAIM_DOMAIN);
    hasher.HashClaim(request.identity);
    assert [] + ClaimFields(request.identity) == ClaimFields(request.identity);
    return hasher.input;
  }

  method DeriveSupersession(request: SupersedeRequest) returns (input: Bytes)
    ensures input == SupersessionPreimage(request)
  {
    var s := request.supersession;
    var hasher := new Hasher(SUPERSESSION_DOMAIN);
    hasher.HashField(Ascii("original_claim_id"), s.original);
    hasher.HashOptionalText("successor_claim_id", s.successor);
    hasher.HashField(Ascii("relation"), SupersessionText(s.relation));
    hasher.HashField(Ascii("effective_at_ms"), I64Bytes(s.effectiveAt));
    assert hasher.fields == SupersessionFields(s);
    return hasher.input;
  }

  /******* The bytes themselves *******/

  lemma FromLeFour(bytes: Bytes)
    requires |bytes| >= 4
    ensures FromLe(bytes) == bytes[0] as nat + 0x100 * bytes[1] as nat + 0x1_0000 * bytes[2] as nat
                             + 0x100_0000 * bytes[3] as nat + 0x1_0000_0000 * FromLe(bytes[4..])
  {
    FromLeTwo(bytes);
    FromLeTwo(bytes[2..]);
    assert bytes[2..][2..] == bytes[4..];
  }

  lemma FromLeTwo(bytes: Bytes)
    requires |bytes| >= 2
    ensures FromLe(bytes) == bytes[0] as nat + 0x100 * bytes[1] as nat + 0x1_0000 * FromLe(bytes[2..])
  {
    assert bytes[1..][1..] == bytes[2..];
  }

  // Eight bytes, the lowest first.
  ghost predicate Spells(bytes: Bytes, n: nat) {
    && |bytes| == 8
    && n == bytes[0] as nat + 0x100 * bytes[1] as nat + 0x1_0000 * bytes[2] as nat + 0x100_0000 * bytes[3] as nat
            + 0x1_0000_0000 * bytes[4] as nat + 0x100_0000_0000 * bytes[5] as nat
            + 0x1_0000_0000_0000 * bytes[6] as nat + 0x100_0000_0000_0000 * bytes[7] as nat
  }

  lemma LeSpells(n: nat)
    requires n < 0x1_0000_0000_0000_0000
    ensures Spells(Le(n, 8), n)
  {
    var bytes := Le(n, 8);
    Power8();
    FromLeLe(n, 8);
    FromLeFour(bytes);
    FromLeFour(bytes[4..]);
    assert bytes[4..][4..] == [];
  }

  // Lengths are unsigned, times are in two's complement.
  lemma NumbersSpelled(length: nat, time: I64)
    requires length < 0x1_0000_0000_0000_0000
    ensures Spells(Le(length, 8), length)
    ensures Spells(I64Bytes(time), if time < 0 then 0x1_0000_0000_0000_0000 + time else time)
  {
    LeSpells(length);
    LeSpells(if time < 0 then time + 0x1_0000_0000_0000_0000 else time);
  }

  // A name and a value, each after its length.
  function Entry(name: string, value: Bytes): Bytes {
    Le(|name|, 8) + Ascii(name) + Le(|value|, 8) + value
  }

  // An absent value is a single byte 0; one that is there follows a byte 1.
  function Maybe(name: string, value: Option<Bytes>): Bytes {
    if value.None? then Entry(name, [0]) else Entry(name, [1]) + Entry(name, value.value)
  }

  function EvidenceBytes(evidence: seq<Evidence>): Bytes {
    if evidence == [] then []
    else
      var e := evidence[0];
      Entry("event_id", e.eventId)
      + (Entry("relation", Ascii(match e.relation
                                 case Supports => "supports"
                                 case Refutes => "refutes"
                                 case QualifiesClaim => "qualifies"))
      + (Maybe("excerpt", e.excerpt) + EvidenceBytes(evidence[1..])))
  }

  lemma AsciiAt(s: string, i: nat, b: byte)
    requires i < |s| && s[i] as int < 128 && b as int == s[i] as int
    ensures Ascii(s)[i] == b
  {
  }

  // Names and words are plain text.
  lemma AsciiPlain(s: string)
    requires forall i | 0 <= i < |s| :: s[i] as int < 128
    ensures Ascii(s) == Encode(s)
  {
    Characters.EncodeAscii(s);
    Alike(s, Encode(s));
  }

  lemma Alike(s: string, bytes: Bytes)
    requires |bytes| == |s| && forall i | 0 <= i < |s| :: s[i] as int < 128 && bytes[i] as int == s[i] as int
    ensures Ascii(s) == bytes
  {
    forall i | 0 <= i < |s| ensures Ascii(s)[i] == bytes[i] {
      AsciiAt(s, i, bytes[i]);
    }
  }

  lemma StreamEntry(name: string, value: Text, rest: seq<Field>)
    requires |name| < 100
    ensures Stream([Field(Ascii(name), value)] + rest) == Entry(name, value) + Stream(rest)
  {
    assert ([Field(Ascii(name), value)] + rest)[1..] == rest;
  }

  lemma StreamMaybe(name: string, value: Option<Text>, rest: seq<Field>)
    requires |name| < 100
    ensures Stream(OptionalFields(name, value) + rest) == Maybe(name, value) + Stream(rest)
  {
    match value
    case None => StreamEntry(name, [0], rest);
    case Some(text) =>
      var second := [Field(Ascii(name), text)] + rest;
      assert OptionalFields(name, value) + rest == [Field(Ascii(name), [1])] + second;
      StreamEntry(name, [1], second);
      StreamEntry(name, text, rest);
      Lists.Assoc(Entry(name, [1]), Entry(name, text), Stream(rest));
  }

  lemma ScopeLayout(s: Scope, rest: seq<Field>)
    ensures Stream(ScopeFields(s) + rest) ==
      Entry("tenant_id", s.tenantId) + (Entry("user_id", s.userId) + (Maybe("project_id", s.projectId)
      + (Maybe("conversation_id", s.conversationId) + (Maybe("session_id", s.sessionId) + Stream(rest)))))
  {
    var session := OptionalFields("session_id", s.sessionId) + rest;
    var conversation := OptionalFields("conversation_id", s.conversationId) + session;
    var project := OptionalFields("project_id", s.projectId) + conversation;
    var user := [Field(Ascii("user_id"), s.userId)] + project;
    assert ScopeFields(s) + rest == [Field(Ascii("tenant_id"), s.tenantId)] + user;
    StreamEntry("tenant_id", s.tenantId, user);
    StreamEntry("user_id", s.userId, project);
    StreamMaybe("project_id", s.projectId, conversation);
    StreamMaybe("conversation_id", s.conversationId, session);
    StreamMaybe("session_id", s.sessionId, rest);
  }

  lemma PropertyLayout(c: Identity, rest: seq<Field>)
    ensures Stream(PropertyFields(c) + rest) ==
      Entry("subject", c.subject) + (Entry("predicate", c.predicate_) + (Entry("value", c.value)
      + (Maybe("valid_from_ms", TimeText(c.validFrom)) + (Maybe("valid_to_ms", TimeText(c.validTo)) + Stream(rest)))))
  {
    var to := OptionalFields("valid_to_ms", TimeText(c.validTo)) + rest;
    var from := OptionalFields("valid_from_ms", TimeText(c.validFrom)) + to;
    var value := [Field(Ascii("value"), c.value)] + from;
    var property := [Field(Ascii("predicate"), c.predicate_)] + value;
    assert PropertyFields(c) + rest == [Field(Ascii("subject"), c.subject)] + property;
    StreamEntry("subject", c.subject, property);
    StreamEntry("predicate", c.predicate_, value);
    StreamEntry("value", c.value, from);
    StreamMaybe("valid_from_ms", TimeText(c.validFrom), to);
    StreamMaybe("valid_to_ms", TimeText(c.validTo), rest);
  }

  lemma {:induction false} EvidenceLayout(evidence: seq<Evidence>)
    ensures Stream(EvidenceFields(evidence)) == EvidenceBytes(evidence)
  {
    if evidence != [] {
      EvidenceLayout(evidence[1..]);
      OneEvidenceLayout(evidence[0], EvidenceFields(evidence[1..]));
    }
  }

  lemma OneEvidenceLayout(e: Evidence, rest: seq<Field>)
    ensures Stream(OneEvidence(e) + rest) ==
      Entry("event_id", e.eventId) + (FieldBytes(Field(Ascii("relation"), RelationText(e.relation)))
      + (Maybe("excerpt", e.excerpt) + Stream(rest)))
  {
    var excerpt := OptionalFields("excerpt", e.excerpt) + rest;
    var relation := [Field(Ascii("relation"), RelationText(e.relation))] + excerpt;
    assert OneEvidence(e) + rest == [Field(Ascii("event_id"), e.eventId)] + relation;
    StreamEntry("event_id", e.eventId, relation);
    StreamEntry("relation", RelationText(e.relation), excerpt);
    StreamMaybe("excerpt", e.excerpt, rest);
  }

  // The bytes a claim id is the hash of.
  lemma ClaimLayout(request: CreateRequest)
    ensures var (c, s) := (request.identity, request.identity.scope);
      ClaimPreimage(request) == Ascii("celiums-memory/claim-id/v1")
      + (Entry("tenant_id", s.tenantId) + (Entry("user_id", s.userId) + (Maybe("project_id", s.projectId)
      + (Maybe("conversation_id", s.conversationId) + (Maybe("session_id", s.sessionId)
      + (Entry("subject", c.subject) + (Entry("predicate", c.predicate_) + (Entry("value", c.value)
      + (Maybe("valid_from_ms", TimeText(c.validFrom)) + (Maybe("valid_to_ms", TimeText(c.validTo))
      + EvidenceBytes(c.evidence)))))))))))
  {
    var c := request.identity;
    var evidence := EvidenceFields(c.evidence);
    Lists.Assoc(ScopeFields(c.scope), PropertyFields(c), evidence);
    ScopeLayout(c.scope, PropertyFields(c) + evidence);
    PropertyLayout(c, evidence);
    EvidenceLayout(c.evidence);
  }

  // The bytes a supersession id is the hash of.
  lemma SupersessionLayout(request: SupersedeRequest)
    ensures var s := request.supersession;
      SupersessionPreimage(request) == Ascii("celiums-memory/claim-supersession/v1")
      + (Entry("original_claim_id", s.original) + (Maybe("successor_claim_id", s.successor)
      + (Entry("relation", Ascii(match s.relation
                                 case Supersedes => "supersedes"
                                 case Recants => "recants"
                                 case Qualifies => "qualifies"
                                 case Reaffirms => "reaffirms"))
      + (Entry("effective_at_ms", I64Bytes(s.effectiveAt)) + []))))
  {
    var s := request.supersession;
    var effective := [Field(Ascii("effective_at_ms"), I64Bytes(s.effectiveAt))];
    var relation := [Field(Ascii("relation"), SupersessionText(s.relation))] + effective;
    var successor := OptionalFields("successor_claim_id", s.successor) + relation;
    assert SupersessionFields(s) == [Field(Ascii("original_claim_id"), s.original)] + successor;
    assert effective + [] == effective;
    StreamEntry("original_claim_id", s.original, successor);
    StreamMaybe("successor_claim_id", s.successor, relation);
    StreamEntry("relation", SupersessionText(s.relation), effective);
    StreamEntry("effective_at_ms", I64Bytes(s.effectiveAt), []);
  }

  /** A half-open validity interval; an absent bound is open. */
  datatype Interval = Interval(from: Option<I64>, to: Option<I64>) {
    predicate ValidAt(at: I64) {
      (from.Some? ==> from.value <= at) && (to.Some? ==> at < to.value)
    }
  }

  function Later(a: Option<I64>, b: Option<I64>): Option<I64> {
    match (a, b)
    case (Some(x), Some(y)) => Some(if x >= y then x else y)
    case (Some(x), None) => Some(x)
    case (None, _) => b
  }

  function Earlier(a: Option<I64>, b: Option<I64>): Option<I64> {
    match (a, b)
    case (Some(x), Some(y)) => Some(if x <= y then x else y)
    case (Some(x), None) => Some(x)
    case (None, _) => b
  }

  function ValidityOverlap(left: Interval, right: Interval): (overlap: Option<Interval>)
    // An overlap that is reported is exactly what the two intervals share.
    ensures overlap.Some? ==>
      forall at: I64 :: overlap.value.ValidAt(at) <==> left.ValidAt(at) && right.ValidAt(at)
  {
    var (from, to) := (Later(left.from, right.from), Earlier(left.to, right.to));
    if from.Some? && to.Some? && from.value >= to.value then None else Some(Interval(from, to))
  }

  ghost predicate Meet(left: Interval, right: Interval) {
    exists at: I64 :: left.ValidAt(at) && right.ValidAt(at)
  }

  // An overlap is reported exactly for intervals that share an instant, unless neither has a start and one of them
  // ends at the first instant there is: then they share nothing and an empty overlap is reported.
  lemma OverlapExactly(left: Interval, right: Interval)
    ensures (ValidityOverlap(left, right).Some? <==> Meet(left, right)) <==>
            !(left.from.None? && right.from.None? && (left.to == Some(I64_MIN) || right.to == Some(I64_MIN)))
  {
    var overlap := ValidityOverlap(left, right);
    if overlap.Some? {
      var shared := overlap.value;
      if shared.from.Some? {
        assert shared.ValidAt(shared.from.value);
      } else if shared.to.Some? && shared.to.value > I64_MIN {
        assert shared.ValidAt(shared.to.value - 1);
      } else if shared.to.None? {
        assert shared.ValidAt(0);
      }
    }
  }
}
