/** Memory resource URIs at the MCP edge: printing, parsing and the injection of the local identity. */
module Uri {
  import opened Wrappers
  import Cut
  import Lists
  import Percent

  const PREFIX := "celiums-memory://memories/"
  const TENANT := "tenant_id"
  const USER := "user_id"
  const PROJECT := "project_id"
  const CONVERSATION := "conversation_id"
  const SESSION := "session_id"

  datatype Scope = Scope(tenantId: string, userId: string, projectId: Option<string>,
                         conversationId: Option<string>, sessionId: Option<string>)

  datatype Error = UnsupportedUri | InvalidId | InvalidParameter | InvalidEncoding | InvalidIdentity

  type Arguments = map<string, string>

  predicate Known(key: string) {
    key == TENANT || key == USER || key == PROJECT || key == CONVERSATION || key == SESSION
  }

  function Encoded(value: string): string {
    Percent.Encode(Percent.AlphanumericOnly, value)
  }

  function Pair(name: string, value: string): string {
    name + ['='] + Encoded(value)
  }

  function OptionalPair(name: string, value: Option<string>): seq<string> {
    if value.Some? then [Pair(name, value.value)] else []
  }

  function Parameters(scope: Scope): seq<string> {
    [Pair(TENANT, scope.tenantId)] + ([Pair(USER, scope.userId)]
    + OptionalPair(PROJECT, scope.projectId) + OptionalPair(CONVERSATION, scope.conversationId)
    + OptionalPair(SESSION, scope.sessionId))
  }

  function Print(id: string, scope: Scope): string {
    PREFIX + (id + ['?'] + Cut.Join(Parameters(scope), '&'))
  }

  // The part before the first '?' and the part after it.
  function SplitQuery(s: string): (string, string) {
    match Cut.Once(s, '?')
    case None => (s, [])
    case Some(parts) => parts
  }

  function Nonempty(pairs: seq<string>): seq<string> {
    if pairs == [] then []
    else (if pairs[0] != [] then [pairs[0]] else []) + Nonempty(pairs[1..])
  }

  function ReadPair(pair: string): Result<(string, string), Error> {
    match Cut.Once(pair, '=')
    case None => Err(InvalidParameter)
    case Some((key, value)) =>
      if !Known(key) || value == [] then Err(InvalidParameter)
      else
        match Percent.Decode(value)
        case None => Err(InvalidEncoding)
        case Some(decoded) => Ok((key, decoded))
  }

  // The pairs in order; a later one with the same key wins.
  function ReadPairs(pairs: seq<string>, arguments: Arguments): Result<Arguments, Error> {
    if pairs == [] then Ok(arguments)
    else
      match ReadPair(pairs[0])
      case Err(e) => Err(e)
      case Ok((key, value)) => ReadPairs(pairs[1..], arguments[key := value])
  }

  function ParseRest(rest: string): Result<(string, Arguments), Error> {
    var (id, query) := SplitQuery(rest);
    if id == [] || '/' in id then Err(InvalidId)
    else
      match ReadPairs(Nonempty(Cut.Split(query, '&')), map[])
      case Err(e) => Err(e)
      case Ok(arguments) => Ok((id, arguments))
  }

  function Parse(uri: string): Result<(string, Arguments), Error> {
    if PREFIX <= uri then ParseRest(uri[|PREFIX|..]) else Err(UnsupportedUri)
  }

  method ParseUri(uri: string) returns (r: Result<(string, Arguments), Error>)
    ensures r == Parse(uri)
  {
    if !(PREFIX <= uri) {
      return Err(UnsupportedUri);
    }
    var (id, query) := SplitQuery(uri[|PREFIX|..]);
    if id == [] || '/' in id {
      return Err(InvalidId);
    }
    var pairs := Nonempty(Cut.Split(query, '&'));
    var arguments: Arguments := map[];
    var i := 0;
    while i < |pairs|
      invariant 0 <= i <= |pairs|
      invariant ReadPairs(pairs, map[]) == ReadPairs(pairs[i..], arguments)
    {
      var pair := ReadPair(pairs[i]);
      assert pairs[i..][0] == pairs[i] && pairs[i..][1..] == pairs[i + 1..];
      if pair.Err? {
        return Err(pair.error);
      }
      arguments := arguments[pair.value.0 := pair.value.1];
      i := i + 1;
    }
    return Ok((id, arguments));
  }

  predicate TenantPair(pair: string) {
    TENANT + ['='] <= pair
  }

  // The pairs that are neither empty nor a tenant.
  function Others(pairs: seq<string>): seq<string> {
    if pairs == [] then []
    else (if pairs[0] != [] && !TenantPair(pairs[0]) then [pairs[0]] else []) + Others(pairs[1..])
  }

  // `inject_local_identity` on a URI.
  function Inject(uri: string, tenant: string): string {
    var (base, query) := SplitQuery(uri);
    base + ['?'] + Cut.Join([Pair(TENANT, tenant)] + Others(Cut.Split(query, '&')), '&')
  }

  function Get(arguments: Arguments, key: string): Option<string> {
    if key in arguments then Some(arguments[key]) else None
  }

  // `recall_scope`; `valid` is the check that every identity passes, and an empty text fails it.
  function RecallScope(arguments: Arguments, valid: string -> bool): Result<Scope, Error> {
    if exists key :: key in arguments && Known(key) && (arguments[key] == "" || !valid(arguments[key]))
    then Err(InvalidIdentity)
    else
      Ok(Scope(if TENANT in arguments then arguments[TENANT] else "local",
               if USER in arguments then arguments[USER] else "local",
               Get(arguments, PROJECT), Get(arguments, CONVERSATION), Get(arguments, SESSION)))
  }

  function Put(arguments: Arguments, key: string, value: Option<string>): Arguments {
    if value.Some? then arguments[key := value.value] else arguments
  }

  function ArgumentsOf(scope: Scope): Arguments {
    Put(Put(Put(map[TENANT := scope.tenantId, USER := scope.userId], PROJECT, scope.projectId),
            CONVERSATION, scope.conversationId), SESSION, scope.sessionId)
  }

  predicate Given(value: Option<string>) { value.Some? ==> value.value != "" }

  predicate Identified(scope: Scope) {
    && scope.tenantId != "" && scope.userId != ""
    && Given(scope.projectId) && Given(scope.conversationId) && Given(scope.sessionId)
  }

  lemma EncodedPlain(value: string)
    ensures '&' !in Encoded(value) && '=' !in Encoded(value) && '?' !in Encoded(value)
    ensures Encoded(value) == [] <==> value == ""
  {
    Percent.EncodePlain(Percent.AlphanumericOnly, value);
  }

  lemma PairShape(name: string, value: string)
    requires '&' !in name && '=' !in name
    ensures '&' !in Pair(name, value) && Pair(name, value) != []
    ensures Cut.Once(Pair(name, value), '=') == Some((name, Encoded(value)))
  {
    EncodedPlain(value);
    Cut.OnceJoined(name, Encoded(value), '=');
  }

  lemma ReadsBack(name: string, value: string)
    requires Known(name)
    ensures ReadPair(Pair(name, value)) == if value == "" then Err(InvalidParameter) else Ok((name, value))
  {
    PairShape(name, value);
    EncodedPlain(value);
    Percent.DecodeEncode(Percent.AlphanumericOnly, value);
  }

  lemma ReadsOptional(name: string, value: Option<string>, rest: seq<string>, arguments: Arguments)
    requires Known(name)
    ensures ReadPairs(OptionalPair(name, value) + rest, arguments) ==
            if Given(value) then ReadPairs(rest, Put(arguments, name, value)) else Err(InvalidParameter)
  {
    var pairs := OptionalPair(name, value) + rest;
    if value.Some? {
      ReadsBack(name, value.value);
      assert pairs[0] == Pair(name, value.value) && pairs[1..] == rest;
    } else {
      assert pairs == rest;
    }
  }

  lemma ReadsParameters(scope: Scope)
    ensures ReadPairs(Parameters(scope), map[]) ==
            if Identified(scope) then Ok(ArgumentsOf(scope)) else Err(InvalidParameter)
  {
    var s := OptionalPair(SESSION, scope.sessionId) + [];
    var c := OptionalPair(CONVERSATION, scope.conversationId) + s;
    var p := OptionalPair(PROJECT, scope.projectId) + c;
    var u := OptionalPair(USER, Some(scope.userId)) + p;
    var a0: Arguments := map[];
    var a1 := Put(a0, TENANT, Some(scope.tenantId));
    var a2 := Put(a1, USER, Some(scope.userId));
    var a3 := Put(a2, PROJECT, scope.projectId);
    var a4 := Put(a3, CONVERSATION, scope.conversationId);
    assert Parameters(scope) == OptionalPair(TENANT, Some(scope.tenantId)) + u;
    ReadsOptional(TENANT, Some(scope.tenantId), u, a0);
    ReadsOptional(USER, Some(scope.userId), p, a1);
    ReadsOptional(PROJECT, scope.projectId, c, a2);
    ReadsOptional(CONVERSATION, scope.conversationId, s, a3);
    ReadsOptional(SESSION, scope.sessionId, [], a4);
  }

  // The parts of a printed query: no separator in them and none is empty.
  ghost predicate Clean(pairs: seq<string>) {
    forall i | 0 <= i < |pairs| :: pairs[i] != [] && '&' !in pairs[i]
  }

  ghost predicate NoTenant(pairs: seq<string>) {
    forall i | 0 <= i < |pairs| :: pairs[i] != [] && !TenantPair(pairs[i])
  }

  lemma OptionalClean(name: string, value: Option<string>)
    requires Known(name)
    ensures Clean(OptionalPair(name, value)) && (name != TENANT ==> NoTenant(OptionalPair(name, value)))
  {
    if value.Some? {
      PairShape(name, value.value);
      PrefixKey(TENANT, Pair(name, value.value));
    }
  }

  lemma ParametersClean(scope: Scope)
    ensures Clean(Parameters(scope)) && NoTenant(Parameters(scope)[1..])
  {
    var (t, u) := (OptionalPair(TENANT, Some(scope.tenantId)), OptionalPair(USER, Some(scope.userId)));
    var (p, c) := (OptionalPair(PROJECT, scope.projectId), OptionalPair(CONVERSATION, scope.conversationId));
    var s := OptionalPair(SESSION, scope.sessionId);
    OptionalClean(TENANT, Some(scope.tenantId));
    OptionalClean(USER, Some(scope.userId));
    OptionalClean(PROJECT, scope.projectId);
    OptionalClean(CONVERSATION, scope.conversationId);
    OptionalClean(SESSION, scope.sessionId);
    assert Parameters(scope) == t + (u + p + c + s);
    assert Parameters(scope)[1..] == u + p + c + s;
  }

  lemma {:induction false} NonemptyAll(pairs: seq<string>)
    requires Clean(pairs)
    ensures Nonempty(pairs) == pairs
  {
    if pairs != [] {
      NonemptyAll(pairs[1..]);
      assert pairs == [pairs[0]] + pairs[1..];
    }
  }

  lemma ParseJoined(base: string, pairs: seq<string>)
    requires '?' !in base && pairs != [] && Clean(pairs)
    ensures ParseRest(base + ['?'] + Cut.Join(pairs, '&')) ==
            if base == [] || '/' in base then Err(InvalidId)
            else match ReadPairs(pairs, map[])
                 case Err(e) => Err(e)
                 case Ok(arguments) => Ok((base, arguments))
  {
    Cut.OnceJoined(base, Cut.Join(pairs, '&'), '?');
    Cut.SplitJoin(pairs, '&');
    NonemptyAll(pairs);
  }

  // Parsing a printed URI gives back its id and scope, exactly when the id has no '/' or '?' in it and nothing
  // that identifies is empty.
  lemma PrintParse(id: string, scope: Scope)
    ensures Parse(Print(id, scope)) == Ok((id, ArgumentsOf(scope))) <==>
            id != "" && '/' !in id && '?' !in id && Identified(scope)
  {
    var (pairs, rest) := (Parameters(scope), id + ['?'] + Cut.Join(Parameters(scope), '&'));
    assert Print(id, scope)[|PREFIX|..] == rest;
    if '?' in id {
      Cut.OnceShortens(rest, '?');
      assert SplitQuery(rest).0 != id;
    } else {
      ParametersClean(scope);
      ParseJoined(id, pairs);
      ReadsParameters(scope);
    }
  }

  // The scope that the parsed arguments stand for is the scope that was printed.
  lemma {:induction false} ScopeRoundTrip(scope: Scope, valid: string -> bool)
    requires Identified(scope) && valid(scope.tenantId) && valid(scope.userId)
    requires forall v | v in [scope.projectId, scope.conversationId, scope.sessionId] :: v.Some? ==> valid(v.value)
    ensures RecallScope(ArgumentsOf(scope), valid) == Ok(scope)
  {
    assert scope.projectId in [scope.projectId, scope.conversationId, scope.sessionId];
    assert scope.conversationId in [scope.projectId, scope.conversationId, scope.sessionId];
    assert scope.sessionId in [scope.projectId, scope.conversationId, scope.sessionId];
    assert |PROJECT| == 10 && |CONVERSATION| == 15 && |SESSION| == 10 && |TENANT| == 9 && |USER| == 7;
    assert PROJECT[0] == 'p' && SESSION[0] == 's';
  }

  lemma {:induction false} OthersClean(pairs: seq<string>)
    requires forall i | 0 <= i < |pairs| :: '&' !in pairs[i]
    ensures Clean(Others(pairs)) && NoTenant(Others(pairs))
  {
    if pairs != [] {
      OthersClean(pairs[1..]);
    }
  }

  lemma {:induction false} OthersAll(pairs: seq<string>)
    requires NoTenant(pairs)
    ensures Others(pairs) == pairs
  {
    if pairs != [] {
      OthersAll(pairs[1..]);
      assert pairs == [pairs[0]] + pairs[1..];
    }
  }

  lemma TenantPairFirst(tenant: string, others: seq<string>)
    requires NoTenant(others)
    ensures Others([Pair(TENANT, tenant)] + others) == others
  {
    var pairs := [Pair(TENANT, tenant)] + others;
    assert TenantPair(pairs[0]) && pairs[1..] == others;
    OthersAll(others);
  }

  lemma BaseHasNoQuery(uri: string)
    ensures '?' !in SplitQuery(uri).0
    ensures forall i | 0 <= i < |Cut.Split(SplitQuery(uri).1, '&')| :: '&' !in Cut.Split(SplitQuery(uri).1, '&')[i]
    ensures Cut.Once(uri, '?').Some? ==> uri == SplitQuery(uri).0 + ['?'] + SplitQuery(uri).1
  {
    Cut.OnceShortens(uri, '?');
    Cut.SplitPieces(SplitQuery(uri).1, '&');
  }

  // The pairs of an injected URI: one tenant pair, first, then the other pairs in their order.
  lemma InjectedPairs(uri: string, tenant: string)
    ensures var (base, query) := SplitQuery(Inject(uri, tenant));
      var others := Others(Cut.Split(SplitQuery(uri).1, '&'));
      && base == SplitQuery(uri).0
      && Cut.Split(query, '&') == [Pair(TENANT, tenant)] + others
      && Clean(others) && NoTenant(others)
  {
    var (base, query) := SplitQuery(uri);
    var others := Others(Cut.Split(query, '&'));
    var pairs := [Pair(TENANT, tenant)] + others;
    BaseHasNoQuery(uri);
    OthersClean(Cut.Split(query, '&'));
    PairShape(TENANT, tenant);
    Cut.OnceJoined(base, Cut.Join(pairs, '&'), '?');
    Cut.SplitJoin(pairs, '&');
  }

  // The last injection wins and leaves no trace of an earlier one; in particular injecting twice is injecting once.
  lemma InjectLastWins(uri: string, first: string, second: string)
    ensures Inject(Inject(uri, first), second) == Inject(uri, second)
  {
    InjectedPairs(uri, first);
    TenantPairFirst(first, Others(Cut.Split(SplitQuery(uri).1, '&')));
  }

  lemma {:induction false} PrefixKey(name: string, pair: string)
    requires '=' !in name
    ensures name + ['='] <= pair <==> Cut.Once(pair, '=').Some? && Cut.Once(pair, '=').value.0 == name
  {
    Cut.OnceShortens(pair, '=');
    if name + ['='] <= pair {
      assert pair == name + ['='] + pair[|name| + 1..];
      Cut.OnceJoined(name, pair[|name| + 1..], '=');
    }
  }

  lemma {:induction false} OtherKeys(pairs: seq<string>, arguments: Arguments)
    requires ReadPairs(pairs, arguments).Ok? && NoTenant(pairs)
    ensures Get(ReadPairs(pairs, arguments).value, TENANT) == Get(arguments, TENANT)
  {
    if pairs != [] {
      PrefixKey(TENANT, pairs[0]);
      var (key, value) := ReadPair(pairs[0]).value;
      OtherKeys(pairs[1..], arguments[key := value]);
    }
  }

  // Whatever the URI carried, what parses after the injection has the local tenant.
  lemma InjectedTenant(uri: string, tenant: string)
    requires tenant != "" && Parse(Inject(uri, tenant)).Ok?
    ensures Get(Parse(Inject(uri, tenant)).value.1, TENANT) == Some(tenant)
  {
    ParseInjected(uri, tenant);
    ReadsBack(TENANT, tenant);
    var others := Others(Cut.Split(SplitQuery(uri).1, '&'));
    InjectedPairs(uri, tenant);
    var pairs := [Pair(TENANT, tenant)] + others;
    assert pairs[0] == Pair(TENANT, tenant) && pairs[1..] == others;
    var start: Arguments := map[];
    OtherKeys(others, start[TENANT := tenant]);
  }

  // And so has the recall scope it stands for.
  lemma InjectedScope(uri: string, tenant: string, valid: string -> bool)
    requires tenant != "" && Parse(Inject(uri, tenant)).Ok?
    requires RecallScope(Parse(Inject(uri, tenant)).value.1, valid).Ok?
    ensures RecallScope(Parse(Inject(uri, tenant)).value.1, valid).value.tenantId == tenant
  {
    InjectedTenant(uri, tenant);
  }

  lemma ParseInjected(uri: string, tenant: string)
    ensures var base := SplitQuery(uri).0;
      var pairs := [Pair(TENANT, tenant)] + Others(Cut.Split(SplitQuery(uri).1, '&'));
      Parse(Inject(uri, tenant)) ==
        if !(PREFIX <= base) then Err(UnsupportedUri)
        else if base == PREFIX || '/' in base[|PREFIX|..] then Err(InvalidId)
        else match ReadPairs(pairs, map[])
             case Err(e) => Err(e)
             case Ok(arguments) => Ok((base[|PREFIX|..], arguments))
  {
    var base := SplitQuery(uri).0;
    var pairs := [Pair(TENANT, tenant)] + Others(Cut.Split(SplitQuery(uri).1, '&'));
    InjectedPairs(uri, tenant);
    PairShape(TENANT, tenant);
    BaseHasNoQuery(uri);
    NoQueryInPrefix();
    PrefixOfBase(PREFIX, base, Cut.Join(pairs, '&'));
    if PREFIX <= base {
      RestAfter(PREFIX, base, Cut.Join(pairs, '&'));
      ParseJoined(base[|PREFIX|..], pairs);
    }
  }

  lemma NoQueryInPrefix()
    ensures '?' !in PREFIX
  {
  }

  lemma RestAfter(prefix: string, base: string, tail: string)
    requires prefix <= base
    ensures (base + ['?'] + tail)[|prefix|..] == base[|prefix|..] + ['?'] + tail
    ensures base[|prefix|..] == [] <==> base == prefix
    ensures '?' !in base ==> '?' !in base[|prefix|..]
  {
    assert base == prefix + base[|prefix|..];
  }

  lemma PrefixOfBase(prefix: string, base: string, tail: string)
    requires '?' !in prefix
    ensures prefix <= base + ['?'] + tail <==> prefix <= base
  {
    var s := base + ['?'] + tail;
    assert s[|base|] == '?';
    if prefix <= s {
      assert forall i | 0 <= i < |prefix| :: s[i] == prefix[i] != '?';
      assert prefix == s[..|prefix|] == base[..|prefix|];
    }
  }

  lemma TenantKey(pair: string)
    requires ReadPair(pair).Ok?
    ensures TenantPair(pair) <==> ReadPair(pair).value.0 == TENANT
  {
    PrefixKey(TENANT, pair);
  }

  lemma {:induction false} ReadWithTenant(pairs: seq<string>, a: Arguments, b: Arguments, tenant: string)
    requires ReadPairs(Nonempty(pairs), a).Ok? && b == a[TENANT := tenant]
    ensures ReadPairs(Others(pairs), b) == Ok(ReadPairs(Nonempty(pairs), a).value[TENANT := tenant])
  {
    if pairs != [] {
      var (pair, kept, others) := (pairs[0], Nonempty(pairs[1..]), Others(pairs[1..]));
      if pair == [] {
        assert Nonempty(pairs) == kept && Others(pairs) == others;
        ReadWithTenant(pairs[1..], a, b, tenant);
      } else {
        assert Nonempty(pairs) == [pair] + kept;
        ReadFirst(pair, kept, a);
        var (key, value) := ReadPair(pair).value;
        TenantKey(pair);
        if TenantPair(pair) {
          assert Others(pairs) == others;
          PutTwice(a, key, value, tenant);
          ReadWithTenant(pairs[1..], a[key := value], b, tenant);
        } else {
          assert Others(pairs) == [pair] + others;
          PutBoth(a, key, value, TENANT, tenant);
          ReadFirst(pair, others, b);
          ReadWithTenant(pairs[1..], a[key := value], b[key := value], tenant);
        }
      }
    }
  }

  lemma PutTwice(a: Arguments, key: string, value: string, later: string)
    ensures a[key := value][key := later] == a[key := later]
  {
  }

  lemma PutBoth(a: Arguments, key: string, value: string, other: string, later: string)
    requires key != other
    ensures a[key := value][other := later] == a[other := later][key := value]
  {
  }

  lemma ReadFirst(pair: string, rest: seq<string>, a: Arguments)
    ensures ReadPairs([pair] + rest, a) ==
            match ReadPair(pair)
            case Err(e) => Err(e)
            case Ok((key, value)) => ReadPairs(rest, a[key := value])
  {
    assert ([pair] + rest)[1..] == rest;
  }

  // Of a URI that parses, the injection replaces the tenant and nothing else.
  lemma InjectReplacesTenant(uri: string, tenant: string)
    requires tenant != "" && Parse(uri).Ok?
    ensures var (id, arguments) := Parse(uri).value;
      Parse(Inject(uri, tenant)) == Ok((id, arguments[TENANT := tenant]))
  {
    var (base, query) := SplitQuery(uri);
    var start: Arguments := map[];
    var pairs := Cut.Split(query, '&');
    SplitAfterPrefix(PREFIX, uri);
    ParseInjected(uri, tenant);
    ReadsBack(TENANT, tenant);
    ReadWithTenant(pairs, start, start[TENANT := tenant], tenant);
    var all := [Pair(TENANT, tenant)] + Others(pairs);
    assert all[0] == Pair(TENANT, tenant) && all[1..] == Others(pairs);
  }

  lemma {:induction false} SplitAfterPrefix(prefix: string, uri: string)
    requires prefix <= uri && '?' !in prefix
    ensures SplitQuery(uri) == (prefix + SplitQuery(uri[|prefix|..]).0, SplitQuery(uri[|prefix|..]).1)
  {
    var rest := uri[|prefix|..];
    assert uri == prefix + rest;
    Cut.OnceShortens(rest, '?');
    match Cut.Once(rest, '?')
    case None => Cut.OnceAbsent(uri, '?');
    case Some((head, tail)) =>
      assert uri == (prefix + head) + ['?'] + tail;
      Cut.OnceJoined(prefix + head, tail, '?');
  }

  lemma InjectJoined(base: string, was: string, others: seq<string>, tenant: string)
    requires '?' !in base && Clean(others) && NoTenant(others)
    ensures Inject(base + ['?'] + Cut.Join([Pair(TENANT, was)] + others, '&'), tenant) ==
            base + ['?'] + Cut.Join([Pair(TENANT, tenant)] + others, '&')
  {
    var pairs := [Pair(TENANT, was)] + others;
    PairShape(TENANT, was);
    Cut.OnceJoined(base, Cut.Join(pairs, '&'), '?');
    Cut.SplitJoin(pairs, '&');
    TenantPairFirst(was, others);
  }

  // On a printed URI the injection is printing with the other tenant.
  lemma InjectPrinted(id: string, scope: Scope, tenant: string)
    requires '?' !in id
    ensures Inject(Print(id, scope), tenant) == Print(id, scope.(tenantId := tenant))
  {
    var (pairs, others) := (Parameters(scope), Parameters(scope)[1..]);
    var later := Parameters(scope.(tenantId := tenant));
    assert pairs == [Pair(TENANT, scope.tenantId)] + others && later == [Pair(TENANT, tenant)] + others;
    ParametersClean(scope);
    NoQueryInPrefix();
    InjectJoined(PREFIX + id, scope.tenantId, others, tenant);
    PrintedAs(PREFIX, id, Cut.Join(pairs, '&'));
    PrintedAs(PREFIX, id, Cut.Join(later, '&'));
  }

  lemma PrintedAs(prefix: string, id: string, query: string)
    ensures prefix + (id + ['?'] + query) == prefix + id + ['?'] + query
  {
  }

  // The injection does not change which resource is meant.
  lemma InjectKeepsResource(uri: string, tenant: string)
    ensures SplitQuery(Inject(uri, tenant)).0 == SplitQuery(uri).0
  {
    InjectedPairs(uri, tenant);
  }

  /******* Letter by letter *******/

  function Amended(pairs: seq<string>): string {
    if pairs == [] then "" else ['&'] + pairs[0] + Amended(pairs[1..])
  }

  lemma {:induction false} JoinAmended(first: string, rest: seq<string>)
    ensures Cut.Join([first] + rest, '&') == first + Amended(rest)
    decreases |rest|
  {
    if rest == [] {
      assert [first] + rest == [first];
    } else {
      JoinAmended(rest[0], rest[1..]);
      assert ([first] + rest)[1..] == rest == [rest[0]] + rest[1..];
      Lists.Assoc(first, ['&'], rest[0] + Amended(rest[1..]));
      Lists.Assoc(['&'], rest[0], Amended(rest[1..]));
    }
  }

  function Optional(name: string, value: Option<string>): string {
    if value.Some? then "&" + name + "=" + Percent.Encode(Percent.AlphanumericOnly, value.value) else ""
  }

  lemma AmendedOptional(name: string, value: Option<string>, rest: seq<string>)
    ensures Amended(OptionalPair(name, value) + rest) == Optional(name, value) + Amended(rest)
  {
    var pairs := OptionalPair(name, value) + rest;
    if value.Some? {
      assert pairs[0] == Pair(name, value.value) && pairs[1..] == rest;
      Lists.Assoc(['&'], name + ['='], Encoded(value.value));
      Lists.Assoc(['&'], name, ['=']);
      assert ['&'] == "&" && ['='] == "=";
    } else {
      assert pairs == rest;
    }
  }

  // What a printed URI looks like.
  lemma PrintedForm(id: string, scope: Scope)
    ensures Print(id, scope) ==
      "celiums-memory://memories/" + (id + "?"
      + ("tenant_id=" + Percent.Encode(Percent.AlphanumericOnly, scope.tenantId)
      + (Optional("user_id", Some(scope.userId)) + (Optional("project_id", scope.projectId)
      + (Optional("conversation_id", scope.conversationId) + (Optional("session_id", scope.sessionId) + ""))))))
  {
    var s := OptionalPair(SESSION, scope.sessionId) + [];
    var c := OptionalPair(CONVERSATION, scope.conversationId) + s;
    var p := OptionalPair(PROJECT, scope.projectId) + c;
    var u := OptionalPair(USER, Some(scope.userId)) + p;
    assert Parameters(scope) == [Pair(TENANT, scope.tenantId)] + u;
    JoinAmended(Pair(TENANT, scope.tenantId), u);
    AmendedOptional(USER, Some(scope.userId), p);
    AmendedOptional(PROJECT, scope.projectId, c);
    AmendedOptional(CONVERSATION, scope.conversationId, s);
    AmendedOptional(SESSION, scope.sessionId, []);
    assert ['?'] == "?" && TENANT + ['='] == "tenant_id=";
  }

  // The pairs of `pieces` that an injection keeps.
  ghost predicate Kept(pieces: seq<string>, i: nat)
    requires i < |pieces|
  {
    pieces[i] != "" && !("tenant_id=" <= pieces[i])
  }

  lemma {:induction false} OthersKept(pieces: seq<string>)
    ensures forall p :: p in Others(pieces) <==> exists i :: 0 <= i < |pieces| && Kept(pieces, i) && pieces[i] == p
  {
    TenantMark();
    if pieces != [] {
      var rest := pieces[1..];
      OthersKept(rest);
      forall i | 0 <= i < |rest| ensures Kept(rest, i) <==> Kept(pieces, i + 1) {
      }
      forall p
        ensures p in Others(pieces) <==> exists i :: 0 <= i < |pieces| && Kept(pieces, i) && pieces[i] == p
      {
        if i :| 0 <= i < |rest| && Kept(rest, i) && rest[i] == p {
          assert Kept(pieces, i + 1) && pieces[i + 1] == p;
        }
        if i :| 0 < i < |pieces| && Kept(pieces, i) && pieces[i] == p {
          assert Kept(rest, i - 1) && rest[i - 1] == p;
        }
        assert Kept(pieces, 0) <==> pieces[0] != [] && !TenantPair(pieces[0]);
      }
    }
  }

  lemma TenantMark()
    ensures TENANT + ['='] == "tenant_id="
  {
  }

  // What an injected URI looks like: the base, the local tenant and the pairs that are neither empty nor a tenant.
  lemma InjectedForm(base: string, query: string, tenant: string)
    requires '?' !in base
    ensures Inject(base + "?" + query, tenant) ==
            base + "?" + ("tenant_id=" + Percent.Encode(Percent.AlphanumericOnly, tenant)
                          + Amended(Others(Cut.Split(query, '&'))))
    ensures Inject(base, tenant) == base + "?" + ("tenant_id=" + Percent.Encode(Percent.AlphanumericOnly, tenant))
  {
    assert ['?'] == "?";
    TenantMark();
    Cut.OnceJoined(base, query, '?');
    Cut.OnceAbsent(base, '?');
    JoinAmended(Pair(TENANT, tenant), Others(Cut.Split(query, '&')));
    assert Cut.Split([], '&') == [[]] && Others([[]]) == [] && [Pair(TENANT, tenant)] + [] == [Pair(TENANT, tenant)];
  }

  // A pair that says something: one of five names, and a value that decodes and is not empty.
  ghost predicate Says(pair: string, key: string, value: string) {
    && key in ["tenant_id", "user_id", "project_id", "conversation_id", "session_id"]
    && key + "=" <= pair && |pair| > |key| + 1
    && Percent.Decode(pair[|key| + 1..]) == Some(value)
  }

  lemma KnownExactly(key: string)
    ensures Known(key) <==> key in ["tenant_id", "user_id", "project_id", "conversation_id", "session_id"]
    ensures Known(key) ==> '=' !in key
  {
    var names := ["tenant_id", "user_id", "project_id", "conversation_id", "session_id"];
    assert names[0] == TENANT && names[1] == USER && names[2] == PROJECT && names[3] == CONVERSATION;
    assert names[4] == SESSION;
  }

  lemma ReadPairExactly(pair: string, key: string, value: string)
    ensures ReadPair(pair) == Ok((key, value)) <==> Says(pair, key, value)
  {
    KnownExactly(key);
    assert ['='] == "=";
    Cut.OnceShortens(pair, '=');
    if Known(key) {
      PrefixKey(key, pair);
      if key + ['='] <= pair {
        assert pair == key + ['='] + pair[|key| + 1..];
        Cut.OnceJoined(key, pair[|key| + 1..], '=');
      }
    }
  }

  // What becomes of a pair that is cut at its first '='; one without '=' is refused.
  lemma ReadPairCut(key: string, raw: string)
    requires '=' !in key
    ensures ReadPair(key) == Err(InvalidParameter)
    ensures ReadPair(key + "=" + raw) ==
      if key !in ["tenant_id", "user_id", "project_id", "conversation_id", "session_id"] || raw == ""
      then Err(InvalidParameter)
      else if Percent.Decode(raw).None? then Err(InvalidEncoding)
      else Ok((key, Percent.Decode(raw).value))
  {
    assert ['='] == "=";
    KnownExactly(key);
    Cut.OnceAbsent(key, '=');
    Cut.OnceJoined(key, raw, '=');
  }

  // Reading pairs: they are accepted if each of them says something, and of equal names the last one counts.
  lemma {:induction false} ReadPairsExactly(pairs: seq<string>, start: Arguments, key: string)
    ensures ReadPairs(pairs, start).Ok? <==> forall i | 0 <= i < |pairs| :: ReadPair(pairs[i]).Ok?
    ensures ReadPairs(pairs, start).Err? ==>
      exists i :: 0 <= i < |pairs| && ReadPair(pairs[i]) == Err(ReadPairs(pairs, start).error)
                  && forall j | 0 <= j < i :: ReadPair(pairs[j]).Ok?
    ensures ReadPairs(pairs, start).Ok? ==>
      Get(ReadPairs(pairs, start).value, key) ==
      var last := LastOf(pairs, key); if last.Some? then last else Get(start, key)
  {
    if pairs != [] {
      var rest := pairs[1..];
      match ReadPair(pairs[0])
      case Err(e) => assert ReadPair(pairs[0]) == Err(ReadPairs(pairs, start).error);
      case Ok((k, v)) =>
        ReadPairsExactly(rest, start[k := v], key);
        assert forall i | 0 < i < |pairs| :: pairs[i] == rest[i - 1];
        if ReadPairs(pairs, start).Err? {
          var i :| 0 <= i < |rest| && ReadPair(rest[i]) == Err(ReadPairs(pairs, start).error)
                   && forall j | 0 <= j < i :: ReadPair(rest[j]).Ok?;
          assert ReadPair(pairs[i + 1]) == Err(ReadPairs(pairs, start).error);
          assert forall j | 0 <= j < i + 1 :: j == 0 || pairs[j] == rest[j - 1];
        }
    }
  }

  // The value that a name has got when all pairs are read.
  function LastOf(pairs: seq<string>, key: string): Option<string> {
    if pairs == [] then None
    else
      var later := LastOf(pairs[1..], key);
      if later.Some? then later
      else
        match ReadPair(pairs[0])
        case Ok((k, v)) => if k == key then Some(v) else None
        case Err(_) => None
  }

  // `value` is what the last piece of this name says.
  ghost predicate LastSays(pieces: seq<string>, i: nat, key: string, value: string) {
    i < |pieces| && Says(pieces[i], key, value) && forall j | i < j < |pieces| :: !(key + "=" <= pieces[j])
  }

  lemma SaysNamed(pair: string, key: string, value: string)
    ensures Says(pair, key, value) ==> key + "=" <= pair && pair != ""
    ensures ReadPair(pair).Ok? && ReadPair(pair).value.0 == key ==> key + "=" <= pair
  {
    if ReadPair(pair).Ok? {
      ReadPairExactly(pair, ReadPair(pair).value.0, ReadPair(pair).value.1);
    }
  }

  lemma NonemptyNext(pieces: seq<string>)
    requires pieces != []
    ensures Nonempty(pieces) ==
      if pieces[0] == "" then Nonempty(pieces[1..]) else [pieces[0]] + Nonempty(pieces[1..])
  {
    assert [] + Nonempty(pieces[1..]) == Nonempty(pieces[1..]);
  }

  lemma LastOfNext(pieces: seq<string>, key: string)
    requires pieces != []
    ensures LastOf(Nonempty(pieces), key) ==
      var later := LastOf(Nonempty(pieces[1..]), key);
      if later.Some? then later
      else if pieces[0] != "" && ReadPair(pieces[0]).Ok? && ReadPair(pieces[0]).value.0 == key
      then Some(ReadPair(pieces[0]).value.1)
      else None
  {
    NonemptyNext(pieces);
    if pieces[0] != "" {
      assert ([pieces[0]] + Nonempty(pieces[1..]))[1..] == Nonempty(pieces[1..]);
    }
  }

  lemma {:induction false} LastOfExactly(pieces: seq<string>, i: nat, key: string, value: string)
    requires LastSays(pieces, i, key, value)
    ensures LastOf(Nonempty(pieces), key) == Some(value)
  {
    var rest := pieces[1..];
    SaysNamed(pieces[0], key, value);
    LastOfNext(pieces, key);
    if i == 0 {
      forall j | 0 <= j < |rest| ensures !(key + "=" <= rest[j]) {
        assert rest[j] == pieces[j + 1];
      }
      NoneSays(rest, key);
      ReadPairExactly(pieces[0], key, value);
    } else {
      assert rest[i - 1] == pieces[i];
      LastOfExactly(rest, i - 1, key, value);
    }
  }

  lemma {:induction false} NoneSays(pieces: seq<string>, key: string)
    requires forall j | 0 <= j < |pieces| :: !(key + "=" <= pieces[j])
    ensures LastOf(Nonempty(pieces), key) == None
  {
    if pieces != [] {
      forall j | 0 <= j < |pieces[1..]| ensures !(key + "=" <= pieces[1..][j]) {
        assert pieces[1..][j] == pieces[j + 1];
      }
      NoneSays(pieces[1..], key);
      SaysNamed(pieces[0], key, "");
      LastOfNext(pieces, key);
    }
  }

  ghost predicate SaysSomething(pair: string) { exists key, value :: Says(pair, key, value) }

  lemma {:induction false} NonemptySay(pieces: seq<string>)
    ensures (forall i | 0 <= i < |Nonempty(pieces)| :: ReadPair(Nonempty(pieces)[i]).Ok?) <==>
            forall i | 0 <= i < |pieces| && pieces[i] != "" :: SaysSomething(pieces[i])
  {
    if pieces != [] {
      var (first, rest) := (pieces[0], pieces[1..]);
      NonemptySay(rest);
      OkSays(first);
      NonemptyNext(pieces);
      forall i | 0 < i < |pieces| ensures pieces[i] == rest[i - 1] {
      }
      forall i | 0 <= i < |rest| ensures rest[i] == pieces[i + 1] {
      }
      if first != "" {
        var all := [first] + Nonempty(rest);
        assert all[0] == first && forall i | 0 < i < |all| :: all[i] == Nonempty(rest)[i - 1];
        assert forall i | 0 <= i < |Nonempty(rest)| :: Nonempty(rest)[i] == all[i + 1];
      }
    }
  }

  lemma OkSays(pair: string)
    ensures ReadPair(pair).Ok? <==> SaysSomething(pair)
  {
    if ReadPair(pair).Ok? {
      ReadPairExactly(pair, ReadPair(pair).value.0, ReadPair(pair).value.1);
    }
    forall key, value | Says(pair, key, value) ensures ReadPair(pair).Ok? {
      ReadPairExactly(pair, key, value);
    }
  }

  lemma ParseOf(id: string, query: string)
    requires '?' !in id
    ensures Parse("celiums-memory://memories/" + (id + "?" + query)) ==
      if id == "" || '/' in id then Err(InvalidId)
      else
        match ReadPairs(Nonempty(Cut.Split(query, '&')), map[])
        case Err(e) => Err(e)
        case Ok(arguments) => Ok((id, arguments))
  {
    assert ['?'] == "?" && PREFIX == "celiums-memory://memories/";
    Lists.CutAppend(PREFIX, id + "?" + query);
    Cut.OnceJoined(id, query, '?');
  }

  // For every URI of this form: it parses if the id is not empty, has no '/' and every piece of the query that is not
  // empty says something; each name has the value of its last piece, and names that do not occur have none.
  lemma ParseExactly(id: string, query: string)
    requires '?' !in id
    ensures var (r, pieces) := (Parse("celiums-memory://memories/" + (id + "?" + query)), Cut.Split(query, '&'));
      && (r.Ok? <==> id != "" && '/' !in id
                     && forall i | 0 <= i < |pieces| && pieces[i] != "" :: SaysSomething(pieces[i]))
      && (r == Err(InvalidId) <==> id == "" || '/' in id)
      && (r.Ok? ==>
            && r.value.0 == id
            && (forall i: nat, key, value | LastSays(pieces, i, key, value) :: Get(r.value.1, key) == Some(value))
            && (forall key | forall j | 0 <= j < |pieces| :: !(key + "=" <= pieces[j]) ::
                  Get(r.value.1, key) == None))
  {
    var pieces := Cut.Split(query, '&');
    var start: Arguments := map[];
    ParseOf(id, query);
    NonemptySay(pieces);
    ReadPairsExactly(Nonempty(pieces), start, "");
    PairErrors(Nonempty(pieces), start);
    forall i: nat, key, value | LastSays(pieces, i, key, value) ensures LastOf(Nonempty(pieces), key) == Some(value) {
      LastOfExactly(pieces, i, key, value);
    }
    forall key | forall j | 0 <= j < |pieces| :: !(key + "=" <= pieces[j])
      ensures LastOf(Nonempty(pieces), key) == None
    {
      NoneSays(pieces, key);
    }
    forall key ensures ReadPairs(Nonempty(pieces), start).Ok? ==>
                         Get(ReadPairs(Nonempty(pieces), start).value, key) == LastOf(Nonempty(pieces), key)
    {
      ReadPairsExactly(Nonempty(pieces), start, key);
    }
  }

  lemma {:induction false} PairErrors(pairs: seq<string>, start: Arguments)
    ensures ReadPairs(pairs, start).Err? ==> ReadPairs(pairs, start).error in {InvalidParameter, InvalidEncoding}
  {
    if pairs != [] && ReadPair(pairs[0]).Ok? {
      PairErrors(pairs[1..], start[ReadPair(pairs[0]).value.0 := ReadPair(pairs[0]).value.1]);
    }
  }

  // The missing tenant and user are local; every identity that is given must be valid.
  lemma RecallScopeExactly(arguments: Arguments, valid: string -> bool)
    ensures RecallScope(arguments, valid) ==
      if forall key | key in arguments
           && key in ["tenant_id", "user_id", "project_id", "conversation_id", "session_id"] ::
           arguments[key] != "" && valid(arguments[key])
      then Ok(Scope(if "tenant_id" in arguments then arguments["tenant_id"] else "local",
                    if "user_id" in arguments then arguments["user_id"] else "local",
                    if "project_id" in arguments then Some(arguments["project_id"]) else None,
                    if "conversation_id" in arguments then Some(arguments["conversation_id"]) else None,
                    if "session_id" in arguments then Some(arguments["session_id"]) else None))
      else Err(InvalidIdentity)
  {
    forall key ensures Known(key) <==> key in ["tenant_id", "user_id", "project_id", "conversation_id", "session_id"] {
      KnownExactly(key);
    }
  }
}
