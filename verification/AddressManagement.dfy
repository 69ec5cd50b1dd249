/**
  The gateway's management protocol over two tables: wallet observations and mutation claims. Any
  number of requests run at once; every SQL statement and every upstream exchange is one step.
 */
module AddressManagement {
  import opened Wrappers
  import opened Text
  import opened AddressRegistry

  const DOMAIN := "conduit.cash"
  const OBSERVATION_SECONDS := 60
  const CLAIM_SECONDS := 600
  const DAY_SECONDS := 86_400

  datatype Operation = Register | Unregister | Transfer | Recover | Available
  {
    predicate IsMutation()
    {
      Register? || Unregister? || Transfer?
    }
  }

  /** The account's HTTP proof, with the outcome of its signature and binding checks. */
  datatype AccountProof = AccountProof(pubkey: string, createdAt: int, verified: bool, boundToRequest: bool)

  datatype Request = Request(
    operation: Operation,
    identity: string,
    timestamp: int,
    name: string,
    description: string,
    fromPubkey: string,
    signature: string,
    fromSignature: string,
    toSignature: string,
    account: Option<AccountProof>)

  /** Library checks: wallet signatures over a message, the content hash, and identity syntax. */
  datatype Library = Library(
    walletSigned: (string, string, string) -> bool,
    hash: string -> string,
    isIdentity: IdentityCheck)

  function IntText(n: int): string
  {
    if n < 0 then "-" + Decimal(-n) else Decimal(n)
  }

  /** The messages the wallets must have signed for a request. */
  function Statements(lib: Library, r: Request): seq<string>
  {
    match r.operation
    case Transfer =>
      [Join(["breez-lnurl:v2", "transfer-from", DOMAIN, r.name, r.fromPubkey, r.identity, IntText(r.timestamp)], '\n'),
       Join(["breez-lnurl:v2", "transfer-to", DOMAIN, r.name, r.fromPubkey, r.identity, lib.hash(r.description),
             IntText(r.timestamp)], '\n')]
    case Unregister => [Join(["breez-lnurl:v2", "unregister", DOMAIN, r.name, IntText(r.timestamp)], '\n')]
    case Register =>
      [Join(["breez-lnurl:v2", "register", DOMAIN, r.name, lib.hash(r.description), IntText(r.timestamp)], '\n')]
    case Recover => [Join(["breez-lnurl:v2", "recover", DOMAIN, r.identity, IntText(r.timestamp)], '\n')]
    case Available =>
      [Join(["breez-lnurl:v2", "available", DOMAIN, r.identity, r.name, IntText(r.timestamp)], '\n')]
  }

  /** What a claim row stands for: the hash of the identity and its signed statements. */
  datatype ClaimKey = ClaimKey(identity: string, statements: seq<string>)

  function KeyOf(lib: Library, r: Request): ClaimKey
  {
    ClaimKey(r.identity, Statements(lib, r))
  }

  predicate Fresh(timestamp: int, now: int)
  {
    -600 <= now - timestamp <= 600
  }

  predicate ApprovalWindow(until: Option<int>, now: int)
  {
    until.Some? && now <= until.value && until.value - now <= DAY_SECONDS
  }

  predicate ValidAccountProof(proof: Option<AccountProof>, owner: string, now: int)
  {
    && proof.Some? && proof.value.pubkey == owner && proof.value.verified && proof.value.boundToRequest
    && -60 <= now - proof.value.createdAt <= 60
  }

  /** Everything checked before the first SQL statement; Failure carries the HTTP status. */
  function Screen(lib: Library, names: seq<ApprovedName>, r: Request, now: int): Result<Option<ApprovedName>, nat>
  {
    if !lib.isIdentity(r.identity) then Failure(404)
    else if !Fresh(r.timestamp, now) then Failure(401)
    else if |r.description| > 1024 || (r.operation != Recover && !ValidName(r.name)) then Failure(400)
    else
      var approval := FindApproval(names, r.name, r.identity);
      if r.operation == Transfer then
        if approval.None? || approval.value.transferFrom != Some(r.fromPubkey) ||
           !ApprovalWindow(approval.value.transferUntil, now) || r.fromPubkey == r.identity then Failure(403)
        else if !lib.walletSigned(Statements(lib, r)[0], r.fromSignature, r.fromPubkey) ||
                !lib.walletSigned(Statements(lib, r)[1], r.toSignature, r.identity) then Failure(401)
        else Success(approval)
      else if !lib.walletSigned(Statements(lib, r)[0], r.signature, r.identity) then Failure(401)
      else if (r.operation == Available || r.operation == Register) &&
              (approval.None? || !approval.value.registration) then Failure(403)
      else if r.operation == Unregister && (approval.None? || !ApprovalWindow(approval.value.deleteUntil, now))
      then Failure(403)
      else Success(approval)
  }

  // ----- a claim key names one mutation -----

  /** Hashes are collision-free and, like identities, free of line breaks. */
  ghost predicate SoundLibrary(lib: Library)
  {
    && (forall x :: '\n' !in lib.hash(x))
    && (forall x, y :: lib.hash(x) == lib.hash(y) ==> x == y)
    && (forall x :: lib.isIdentity(x) ==> '\n' !in x)
  }

  /** The parts of a request that its signed statements bind. */
  ghost predicate SameMutation(a: Request, b: Request)
  {
    && a.operation == b.operation && a.identity == b.identity && a.timestamp == b.timestamp
    && (a.operation != Recover ==> a.name == b.name)
    && (a.operation == Register || a.operation == Transfer ==> a.description == b.description)
    && (a.operation == Transfer ==> a.fromPubkey == b.fromPubkey)
  }

  function LastStatement(lib: Library, r: Request): seq<string>
  {
    match r.operation
    case Transfer =>
      ["breez-lnurl:v2", "transfer-to", DOMAIN, r.name, r.fromPubkey, r.identity, lib.hash(r.description),
       IntText(r.timestamp)]
    case Unregister => ["breez-lnurl:v2", "unregister", DOMAIN, r.name, IntText(r.timestamp)]
    case Register => ["breez-lnurl:v2", "register", DOMAIN, r.name, lib.hash(r.description), IntText(r.timestamp)]
    case Recover => ["breez-lnurl:v2", "recover", DOMAIN, r.identity, IntText(r.timestamp)]
    case Available => ["breez-lnurl:v2", "available", DOMAIN, r.identity, r.name, IntText(r.timestamp)]
  }

  lemma ValidNameIsOneLine(s: string)
    requires ValidName(s)
    ensures '\n' !in s
  {
    if '\n' in s {
      JoinSplit(s, '.');
      JoinKeepsOut(Split(s, '.'), '.', '\n');
    }
  }

  lemma {:induction false} JoinKeepsOut(parts: seq<string>, c: char, x: char)
    requires x != c && forall p :: p in parts ==> x !in p
    ensures x !in Join(parts, c)
  {
    if |parts| > 1 {
      JoinKeepsOut(parts[1..], c, x);
      assert parts[0] in parts;
    }
  }

  lemma IntTextIsOneLine(n: int)
    ensures '\n' !in IntText(n)
    ensures IntText(n)[0] == '-' <==> n < 0
  {
  }

  lemma IntTextInjective(m: int, n: int)
    requires IntText(m) == IntText(n)
    ensures m == n
  {
    IntTextIsOneLine(m);
    IntTextIsOneLine(n);
    if m < 0 {
      assert IntText(m)[1..] == Decimal(-m) && IntText(n)[1..] == Decimal(-n);
      DecimalInjective(-m, -n);
    } else {
      DecimalInjective(m, n);
    }
  }

  lemma ScreenedFields(lib: Library, names: seq<ApprovedName>, r: Request, now: int)
    requires SoundLibrary(lib) && SoundRegistry(lib.isIdentity, names) && Screen(lib, names, r, now).Success?
    ensures '\n' !in r.identity
    ensures r.operation != Recover ==> '\n' !in r.name
    ensures r.operation == Transfer ==> '\n' !in r.fromPubkey
  {
    if r.operation != Recover {
      ValidNameIsOneLine(r.name);
    }
    if r.operation == Transfer {
      var approval := FindApproval(names, r.name, r.identity).value;
      assert MeetsPolicy(lib.isIdentity, approval);
    }
  }

  lemma OneLinePieces(lib: Library, r: Request)
    requires SoundLibrary(lib) && '\n' !in r.identity && '\n' !in IntText(r.timestamp)
    requires r.operation != Recover ==> '\n' !in r.name
    requires r.operation == Transfer ==> '\n' !in r.fromPubkey
    ensures forall p :: p in LastStatement(lib, r) ==> '\n' !in p
  {
  }

  /** Splitting a signed statement at its line breaks gives back the fields it was joined from. */
  lemma StatementSplits(lib: Library, names: seq<ApprovedName>, r: Request, now: int)
    requires SoundLibrary(lib) && SoundRegistry(lib.isIdentity, names) && Screen(lib, names, r, now).Success?
    ensures var s := Statements(lib, r);
            s[|s| - 1] == Join(LastStatement(lib, r), '\n') && Split(s[|s| - 1], '\n') == LastStatement(lib, r)
  {
    ScreenedFields(lib, names, r, now);
    IntTextIsOneLine(r.timestamp);
    OneLinePieces(lib, r);
    SplitJoin(LastStatement(lib, r), '\n');
  }

  lemma FieldsNameMutation(lib: Library, a: Request, b: Request)
    requires SoundLibrary(lib) && a.identity == b.identity && LastStatement(lib, a) == LastStatement(lib, b)
    ensures SameMutation(a, b)
  {
    var x, y := LastStatement(lib, a), LastStatement(lib, b);
    assert x[1] == y[1];
    OperationNamed(lib, a, b);
    assert x[|x| - 1] == y[|y| - 1];
    IntTextInjective(a.timestamp, b.timestamp);
  }

  /** Two screened requests share a claim key exactly when they ask for the same mutation. */
  lemma ClaimKeyNamesOneMutation(lib: Library, names: seq<ApprovedName>, a: Request, now: int,
                                 otherNames: seq<ApprovedName>, b: Request, otherNow: int)
    requires SoundLibrary(lib)
    requires SoundRegistry(lib.isIdentity, names) && Screen(lib, names, a, now).Success?
    requires SoundRegistry(lib.isIdentity, otherNames) && Screen(lib, otherNames, b, otherNow).Success?
    ensures KeyOf(lib, a) == KeyOf(lib, b) <==> SameMutation(a, b)
  {
    if KeyOf(lib, a) == KeyOf(lib, b) {
      StatementSplits(lib, names, a, now);
      StatementSplits(lib, otherNames, b, otherNow);
      FieldsNameMutation(lib, a, b);
    }
  }

  lemma OperationNamed(lib: Library, a: Request, b: Request)
    requires LastStatement(lib, a)[1] == LastStatement(lib, b)[1]
    ensures a.operation == b.operation
  {
    var x, y := LastStatement(lib, a)[1], LastStatement(lib, b)[1];
    assert |x| == |y| && x[0] == y[0] && x[2] == y[2];
  }

  datatype Observation = Observation(name: Option<string>, observedAt: int)

  datatype Claim = Claim(identity: string, expiresAt: int)

  /** A recent enough observation that names nothing, the requested name, or the name it replaces. */
  predicate Admits(observed: Observation, name: string, approval: ApprovedName, now: int)
  {
    && now - observed.observedAt <= OBSERVATION_SECONDS
    && (observed.name == None || observed.name == Some(name) || observed.name == approval.replacing)
  }

  // ----- the two tables -----

  type Observations = map<string, Observation>
  type Claims = map<ClaimKey, Claim>

  /** DELETE ... WHERE observed_at < before */
  function Prune(rows: Observations, before: int): Observations
  {
    map identity | identity in rows && rows[identity].observedAt >= before :: rows[identity]
  }

  /** INSERT ... ON CONFLICT DO UPDATE ... WHERE excluded.observed_at >= observed_at */
  function Upsert(rows: Observations, identity: string, row: Observation): Observations
  {
    if identity in rows && row.observedAt < rows[identity].observedAt then rows
    else rows[identity := row]
  }

  /** INSERT OR IGNORE: the new table and the number of rows it changed. */
  function InsertClaim(rows: Claims, key: ClaimKey, claim: Claim): (Claims, nat)
  {
    if key in rows then (rows, 0) else (rows[key := claim], 1)
  }

  // ----- requests in flight -----

  datatype Phase =
    | AwaitObservation
    | AwaitClaim
    | AwaitForward
    | AwaitReply
    | AwaitPrune(observed: Option<string>)
    | AwaitUpsert(observed: Option<string>)
    | Ended

  /** One request: its input, the registry it was handed, its clock reading, and where it stands. */
  datatype Process = Process(
    request: Request,
    names: seq<ApprovedName>,
    now: int,
    phase: Phase,
    claimed: bool,
    forwarded: bool)

  datatype Gateway = Gateway(observations: Observations, claims: Claims, processes: seq<Process>)

  /** Upstream's reply, as far as the gateway reads it; a field is None unless it is a string. */
  datatype Body =
    | Message(text: string)
    | Fields(username: Option<string>, lightningAddress: Option<string>, lnurl: Option<string>)
    | Other

  datatype Reply = Reply(status: nat, body: Body)
  {
    predicate Ok()
    {
      200 <= status <= 299
    }
  }

  /** What a reply to a recover says about the wallet: Some(None) means it has no name. */
  function Observed(reply: Reply): (observed: Option<Option<string>>)
    ensures observed.Some? && observed.value.Some? ==> ValidName(observed.value.value)
  {
    match reply.body
    case Message(text) => if reply.status == 404 && text == "user not found" then Some(None) else None
    case Fields(Some(username), lightningAddress, lnurl) =>
      if reply.Ok() && ValidName(username) && lightningAddress == Some(username + "@" + DOMAIN) &&
         lnurl == Some("lnurlp://" + DOMAIN + "/lnurlp/" + username)
      then Some(Some(username)) else None
    case _ => None
  }

  /** The reply says that the wallet has this name, or, with status 404, that it has none. */
  ghost predicate SaysName(reply: Reply, observed: Option<string>)
  {
    match observed
    case None => reply.status == 404 && reply.body == Message("user not found")
    case Some(u) =>
      && 200 <= reply.status <= 299 && IsDotted(u)
      && reply.body == Fields(Some(u), Some(u + "@conduit.cash"), Some("lnurlp://conduit.cash/lnurlp/" + u))
  }

  lemma AddressTexts(u: string)
    ensures u + "@" + DOMAIN == u + "@conduit.cash"
    ensures "lnurlp://" + DOMAIN + "/lnurlp/" + u == "lnurlp://conduit.cash/lnurlp/" + u
  {
    assert "@" + DOMAIN == "@conduit.cash";
    assert "lnurlp://" + DOMAIN + "/lnurlp/" == "lnurlp://conduit.cash/lnurlp/";
  }

  /** A reply is taken to say exactly what it says. */
  lemma ObservedExactly(reply: Reply, observed: Option<string>)
    ensures Observed(reply) == Some(observed) <==> SaysName(reply, observed)
  {
    if reply.body.Fields? && reply.body.username.Some? {
      NamesAreDotted(reply.body.username.value);
      AddressTexts(reply.body.username.value);
    }
  }

  predicate IsRegistered(names: seq<ApprovedName>, identity: string)
  {
    exists i :: 0 <= i < |names| && names[i].sparkIdentity == identity && names[i].registration
  }

  /** The account proof and the provider switch, checked once the observation (if any) is fine. */
  function BeforeClaim(names: seq<ApprovedName>, r: Request, now: int, qualified: bool): Phase
  {
    var approval := FindApproval(names, r.name, r.identity);
    if approval.None? || !ValidAccountProof(r.account, approval.value.ownerPubkey, now) || !qualified then Ended
    else AwaitClaim
  }

  function FirstPhase(lib: Library, names: seq<ApprovedName>, r: Request, now: int, qualified: bool, limited: bool)
    : Phase
  {
    match Screen(lib, names, r, now)
    case Failure(_) => Ended
    case Success(_) =>
      match r.operation
      case Register => AwaitObservation
      case Recover => if limited then Ended else AwaitForward
      case Available => AwaitForward
      case _ => BeforeClaim(names, r, now, qualified)
  }

  datatype Action =
    | Arrives(request: Request, names: seq<ApprovedName>, now: int, qualified: bool, limited: bool)
    | SelectsObservation(process: nat, qualified: bool)
    | InsertsClaim(process: nat)
    | Forwards(process: nat)
    | Receives(process: nat, reply: Reply)
    | Prunes(process: nat)
    | Upserts(process: nat)
    | Aborts(process: nat)

  function Move(s: Gateway, process: nat, phase: Phase): Gateway
    requires process < |s.processes|
  {
    s.(processes := s.processes[process := s.processes[process].(phase := phase)])
  }

  predicate In(s: Gateway, process: nat, phase: Phase)
  {
    process < |s.processes| && s.processes[process].phase == phase
  }

  predicate Enabled(s: Gateway, a: Action)
  {
    match a
    case Arrives(_, _, _, _, _) => true
    case SelectsObservation(process, _) => In(s, process, AwaitObservation)
    case InsertsClaim(process) => In(s, process, AwaitClaim)
    case Forwards(process) => In(s, process, AwaitForward)
    case Receives(process, _) => In(s, process, AwaitReply)
    case Prunes(process) => process < |s.processes| && s.processes[process].phase.AwaitPrune?
    case Upserts(process) => process < |s.processes| && s.processes[process].phase.AwaitUpsert?
    case Aborts(process) => process < |s.processes|
  }

  function Next(lib: Library, s: Gateway, a: Action): Gateway
    requires Enabled(s, a)
  {
    match a
    case Arrives(request, names, now, qualified, limited) =>
      var phase := FirstPhase(lib, names, request, now, qualified, limited);
      s.(processes := s.processes + [Process(request, names, now, phase, false, false)])
    case SelectsObservation(process, qualified) =>
      var p := s.processes[process];
      var approval := FindApproval(p.names, p.request.name, p.request.identity);
      if p.request.identity in s.observations && approval.Some? &&
         Admits(s.observations[p.request.identity], p.request.name, approval.value, p.now)
      then Move(s, process, BeforeClaim(p.names, p.request, p.now, qualified))
      else Move(s, process, Ended)
    case InsertsClaim(process) =>
      var p := s.processes[process];
      var (claims, changes) := InsertClaim(s.claims, KeyOf(lib, p.request),
                                           Claim(p.request.identity, p.request.timestamp + CLAIM_SECONDS));
      if changes == 1 then
        s.(claims := claims,
           processes := s.processes[process := p.(phase := AwaitForward, claimed := true)])
      else Move(s.(claims := claims), process, Ended)
    case Forwards(process) =>
      s.(processes := s.processes[process := s.processes[process].(phase := AwaitReply, forwarded := true)])
    case Receives(process, reply) =>
      var p := s.processes[process];
      if p.request.operation == Recover && Observed(reply).Some? && IsRegistered(p.names, p.request.identity)
      then Move(s, process, AwaitPrune(Observed(reply).value))
      else Move(s, process, Ended)
    case Prunes(process) =>
      var p := s.processes[process];
      Move(s.(observations := Prune(s.observations, p.now - DAY_SECONDS)), process, AwaitUpsert(p.phase.observed))
    case Upserts(process) =>
      var p := s.processes[process];
      Move(s.(observations := Upsert(s.observations, p.request.identity, Observation(p.phase.observed, p.now))),
           process, Ended)
    case Aborts(process) => Move(s, process, Ended)
  }

  datatype Run = Run(states: seq<Gateway>, actions: seq<Action>)

  ghost predicate Happens(lib: Library, run: Run, n: nat)
    requires |run.states| == |run.actions| + 1 && n < |run.actions|
  {
    && Enabled(run.states[n], run.actions[n])
    && run.states[n + 1] == Next(lib, run.states[n], run.actions[n])
  }

  /** Any interleaving of any requests; observations start empty, claims may already hold rows. */
  ghost predicate IsRun(lib: Library, run: Run)
  {
    && |run.states| == |run.actions| + 1
    && run.states[0].observations == map[] && run.states[0].processes == []
    && forall n :: 0 <= n < |run.actions| ==> Happens(lib, run, n)
  }

  // ----- at most once -----

  /** Claims, processes and forwarding agree, and no two processes hold one claim. */
  ghost predicate ClaimsGuard(lib: Library, s: Gateway)
  {
    && (forall i :: 0 <= i < |s.processes| ==> SoundProcess(lib, s, s.processes[i]))
    && (forall i, j :: 0 <= i < j < |s.processes| && s.processes[i].claimed && s.processes[j].claimed ==>
          KeyOf(lib, s.processes[i].request) != KeyOf(lib, s.processes[j].request))
  }

  ghost predicate SoundProcess(lib: Library, s: Gateway, p: Process)
  {
    && (p.claimed ==> KeyOf(lib, p.request) in s.claims)
    && (p.request.operation.IsMutation() && (p.forwarded || p.phase == AwaitForward) ==> p.claimed)
    && (p.phase in {AwaitObservation, AwaitClaim} ==> !p.claimed && p.request.operation.IsMutation())
    && (p.phase in {AwaitObservation, AwaitClaim, AwaitForward} ==> !p.forwarded)
    && (p.phase == AwaitReply || p.phase.AwaitPrune? || p.phase.AwaitUpsert? ==> p.forwarded)
  }

  function Actor(a: Action): Option<nat>
  {
    if a.Arrives? then None else Some(a.process)
  }

  /** A step touches its own request, and takes no claim away. */
  lemma NextLeavesOthers(lib: Library, s: Gateway, a: Action, i: nat)
    requires Enabled(s, a) && i < |s.processes| && Actor(a) != Some(i)
    ensures Next(lib, s, a).processes[i] == s.processes[i] && s.claims.Keys <= Next(lib, s, a).claims.Keys
  {
  }

  lemma NextKeepsSound(lib: Library, s: Gateway, a: Action, i: nat)
    requires Enabled(s, a) && i < |Next(lib, s, a).processes|
    requires i < |s.processes| ==> SoundProcess(lib, s, s.processes[i])
    ensures SoundProcess(lib, Next(lib, s, a), Next(lib, s, a).processes[i])
  {
    if i < |s.processes| && Actor(a) != Some(i) {
      NextLeavesOthers(lib, s, a, i);
    } else {
      ActorStaysSound(lib, s, a, i);
    }
  }

  lemma ActorStaysSound(lib: Library, s: Gateway, a: Action, i: nat)
    requires Enabled(s, a) && i < |Next(lib, s, a).processes| && (Actor(a) == Some(i) || i >= |s.processes|)
    requires i < |s.processes| ==> SoundProcess(lib, s, s.processes[i])
    ensures SoundProcess(lib, Next(lib, s, a), Next(lib, s, a).processes[i])
  {
  }

  /** One step claims at most one key, and only a key that was free. */
  lemma NextClaims(lib: Library, s: Gateway, a: Action, i: nat)
    requires Enabled(s, a) && i < |Next(lib, s, a).processes| && Next(lib, s, a).processes[i].claimed
    ensures i < |s.processes| && Next(lib, s, a).processes[i].request == s.processes[i].request
    ensures s.processes[i].claimed || (a == InsertsClaim(i) && KeyOf(lib, s.processes[i].request) !in s.claims)
  {
  }

  lemma NextGuards(lib: Library, s: Gateway, a: Action)
    requires Enabled(s, a) && ClaimsGuard(lib, s)
    ensures ClaimsGuard(lib, Next(lib, s, a))
  {
    var t := Next(lib, s, a);
    forall i | 0 <= i < |t.processes| ensures SoundProcess(lib, t, t.processes[i]) {
      NextKeepsSound(lib, s, a, i);
    }
    forall i, j | 0 <= i < j < |t.processes| && t.processes[i].claimed && t.processes[j].claimed
      ensures KeyOf(lib, t.processes[i].request) != KeyOf(lib, t.processes[j].request)
    {
      NextClaims(lib, s, a, i);
      NextClaims(lib, s, a, j);
      assert SoundProcess(lib, s, s.processes[i]) && SoundProcess(lib, s, s.processes[j]);
    }
  }

  lemma {:induction false} RunGuards(lib: Library, run: Run, n: nat)
    requires IsRun(lib, run) && n <= |run.actions|
    ensures ClaimsGuard(lib, run.states[n])
  {
    if n > 0 {
      RunGuards(lib, run, n - 1);
      assert Happens(lib, run, n - 1);
      NextGuards(lib, run.states[n - 1], run.actions[n - 1]);
    }
  }

  /** Requests keep their input for life, and what was claimed or forwarded stays so. */
  ghost predicate ProcessesKeep(s: Gateway, t: Gateway)
  {
    && |s.processes| <= |t.processes|
    && forall i :: 0 <= i < |s.processes| ==>
         && t.processes[i].request == s.processes[i].request
         && t.processes[i].names == s.processes[i].names
         && t.processes[i].now == s.processes[i].now
         && (s.processes[i].claimed ==> t.processes[i].claimed)
         && (s.processes[i].forwarded ==> t.processes[i].forwarded)
  }

  lemma {:induction false} RunKeepsProcesses(lib: Library, run: Run, m: nat, n: nat)
    requires IsRun(lib, run) && m <= n <= |run.actions|
    ensures ProcessesKeep(run.states[m], run.states[n])
  {
    if m < n {
      RunKeepsProcesses(lib, run, m, n - 1);
      assert Happens(lib, run, n - 1);
    }
  }

  /** Step n forwards the mutation with this claim key upstream. */
  ghost predicate ForwardsMutation(lib: Library, run: Run, n: nat, key: ClaimKey)
    requires n < |run.actions| < |run.states|
  {
    var a := run.actions[n];
    && a.Forwards? && a.process < |run.states[n].processes|
    && run.states[n].processes[a.process].request.operation.IsMutation()
    && KeyOf(lib, run.states[n].processes[a.process].request) == key
  }

  /** Under any interleaving, one identity's signed statements are forwarded at most once. */
  lemma MutationsForwardAtMostOnce(lib: Library, run: Run, m: nat, n: nat, key: ClaimKey)
    requires IsRun(lib, run) && m < |run.actions| && n < |run.actions|
    requires ForwardsMutation(lib, run, m, key) && ForwardsMutation(lib, run, n, key)
    ensures m == n
  {
    if m < n {
      ForwardedOnce(lib, run, m, n, key);
    } else if n < m {
      ForwardedOnce(lib, run, n, m, key);
    }
  }

  lemma ForwardedOnce(lib: Library, run: Run, m: nat, n: nat, key: ClaimKey)
    requires IsRun(lib, run) && m < n < |run.actions|
    requires ForwardsMutation(lib, run, m, key)
    ensures !ForwardsMutation(lib, run, n, key)
  {
    var p, q := run.actions[m].process, if run.actions[n].Forwards? then run.actions[n].process else 0;
    ForwardedStays(lib, run, m, n);
    if ForwardsMutation(lib, run, n, key) {
      ReadyToForward(lib, run, n);
      RunGuards(lib, run, n);
      SameClaimSameProcess(lib, run.states[n], p, q);
    }
  }

  lemma ForwardedStays(lib: Library, run: Run, m: nat, n: nat)
    requires IsRun(lib, run) && m < n <= |run.actions| && run.actions[m].Forwards?
    ensures var p := run.actions[m].process;
            && p < |run.states[m].processes| && p < |run.states[n].processes|
            && run.states[n].processes[p].request == run.states[m].processes[p].request
            && run.states[n].processes[p].forwarded
            && (run.states[n].processes[p].request.operation.IsMutation() ==> run.states[n].processes[p].claimed)
  {
    assert Happens(lib, run, m);
    var p := run.actions[m].process;
    RunKeepsProcesses(lib, run, m + 1, n);
    RunGuards(lib, run, n);
    assert SoundProcess(lib, run.states[n], run.states[n].processes[p]);
  }

  lemma ReadyToForward(lib: Library, run: Run, n: nat)
    requires IsRun(lib, run) && n < |run.actions| && run.actions[n].Forwards?
    ensures var q := run.actions[n].process;
            && q < |run.states[n].processes| && !run.states[n].processes[q].forwarded
            && (run.states[n].processes[q].request.operation.IsMutation() ==> run.states[n].processes[q].claimed)
  {
    assert Happens(lib, run, n);
    RunGuards(lib, run, n);
    assert SoundProcess(lib, run.states[n], run.states[n].processes[run.actions[n].process]);
  }

  lemma SameClaimSameProcess(lib: Library, s: Gateway, p: nat, q: nat)
    requires ClaimsGuard(lib, s) && p < |s.processes| && q < |s.processes|
    requires s.processes[p].claimed && s.processes[q].claimed
    requires KeyOf(lib, s.processes[p].request) == KeyOf(lib, s.processes[q].request)
    ensures p == q
  {
  }

  /** A claim that was there before the run blocks its mutation for good. */
  lemma OldClaimsBlock(lib: Library, run: Run, n: nat, key: ClaimKey)
    requires IsRun(lib, run) && n < |run.actions| && key in run.states[0].claims
    ensures !ForwardsMutation(lib, run, n, key)
  {
    if ForwardsMutation(lib, run, n, key) {
      assert Happens(lib, run, n);
      RunGuards(lib, run, n);
      var p := run.actions[n].process;
      assert SoundProcess(lib, run.states[n], run.states[n].processes[p]);
      OldKeysUnclaimed(lib, run, n, key, p);
    }
  }

  lemma {:induction false} OldKeysUnclaimed(lib: Library, run: Run, n: nat, key: ClaimKey, p: nat)
    requires IsRun(lib, run) && n <= |run.actions| && key in run.states[0].claims
    ensures key in run.states[n].claims
    ensures p < |run.states[n].processes| && KeyOf(lib, run.states[n].processes[p].request) == key ==>
              !run.states[n].processes[p].claimed
  {
    if n > 0 {
      OldKeysUnclaimed(lib, run, n - 1, key, p);
      assert Happens(lib, run, n - 1);
      RunKeepsProcesses(lib, run, n - 1, n);
    }
  }

  // ----- registration needs a recent recovery -----

  /** Step u records what process q's recover observed, after upstream's reply said so. */
  ghost predicate RecordsRecover(run: Run, u: nat, identity: string, row: Observation)
    requires u < |run.actions| < |run.states|
  {
    && run.actions[u].Upserts? && run.actions[u].process < |run.states[u].processes|
    && var q := run.actions[u].process;
       && run.states[u].processes[q].request.operation == Recover
       && run.states[u].processes[q].request.identity == identity
       && run.states[u].processes[q].now == row.observedAt
       && exists k, f :: 0 <= f < k < u && RecoverReplied(run, f, k, q, row.name)
  }

  /** Process q's request went upstream at step f and came back at step k naming `observed`. */
  ghost predicate RecoverReplied(run: Run, f: nat, k: nat, q: nat, observed: Option<string>)
    requires f < |run.actions| && k < |run.actions|
  {
    && run.actions[f] == Forwards(q)
    && run.actions[k].Receives? && run.actions[k].process == q && SaysName(run.actions[k].reply, observed)
  }

  /** A recover process that is about to write has its reply behind it. */
  ghost predicate ReplyBehind(run: Run, n: nat, q: nat)
    requires n <= |run.actions| < |run.states|
  {
    q < |run.states[n].processes| ==>
      var p := run.states[n].processes[q];
      && (p.forwarded ==> exists f :: 0 <= f < n && run.actions[f] == Forwards(q))
      && (p.phase.AwaitPrune? || p.phase.AwaitUpsert? ==>
            && p.request.operation == Recover
            && exists k, f :: 0 <= f < k < n && RecoverReplied(run, f, k, q, p.phase.observed))
  }

  /** How one step changes a request's standing: it goes upstream, hears back, or keeps what it heard. */
  lemma StepReplies(lib: Library, s: Gateway, a: Action, q: nat)
    requires Enabled(s, a) && q < |Next(lib, s, a).processes|
    requires q < |s.processes| ==> SoundProcess(lib, s, s.processes[q])
    ensures var p := Next(lib, s, a).processes[q];
            && (p.forwarded ==> q < |s.processes| && (s.processes[q].forwarded || a == Forwards(q)))
            && (p.phase.AwaitPrune? || p.phase.AwaitUpsert? ==>
                  && q < |s.processes| && s.processes[q].forwarded && p.request == s.processes[q].request
                  && if a.Receives? && a.process == q
                     then p.request.operation == Recover && Observed(a.reply) == Some(p.phase.observed)
                     else (s.processes[q].phase.AwaitPrune? || s.processes[q].phase.AwaitUpsert?) &&
                          s.processes[q].phase.observed == p.phase.observed)
  {
  }

  lemma {:induction false} RepliesBehind(lib: Library, run: Run, n: nat, q: nat)
    requires IsRun(lib, run) && n <= |run.actions|
    ensures ReplyBehind(run, n, q)
  {
    if n > 0 && q < |run.states[n].processes| {
      RepliesBehind(lib, run, n - 1, q);
      RunGuards(lib, run, n - 1);
      RunStepReplies(lib, run, n - 1, q);
      var s, a, p := run.states[n - 1], run.actions[n - 1], run.states[n].processes[q];
      if p.forwarded && s.processes[q].forwarded {
        var f :| 0 <= f < n - 1 && run.actions[f] == Forwards(q);
      }
      if p.phase.AwaitPrune? || p.phase.AwaitUpsert? {
        if a.Receives? && a.process == q {
          var f :| 0 <= f < n - 1 && run.actions[f] == Forwards(q);
          ObservedExactly(a.reply, p.phase.observed);
          assert RecoverReplied(run, f, n - 1, q, p.phase.observed);
        } else {
          var k, f :| 0 <= f < k < n - 1 && RecoverReplied(run, f, k, q, p.phase.observed);
        }
      }
    }
  }

  /** StepReplies along a run. */
  lemma RunStepReplies(lib: Library, run: Run, n: nat, q: nat)
    requires IsRun(lib, run) && n < |run.actions| && q < |run.states[n + 1].processes|
    ensures var s, a, p := run.states[n], run.actions[n], run.states[n + 1].processes[q];
            && (p.forwarded ==> q < |s.processes| && (s.processes[q].forwarded || a == Forwards(q)))
            && (p.phase.AwaitPrune? || p.phase.AwaitUpsert? ==>
                  && q < |s.processes| && s.processes[q].forwarded && p.request == s.processes[q].request
                  && if a.Receives? && a.process == q
                     then p.request.operation == Recover && Observed(a.reply) == Some(p.phase.observed)
                     else (s.processes[q].phase.AwaitPrune? || s.processes[q].phase.AwaitUpsert?) &&
                          s.processes[q].phase.observed == p.phase.observed)
  {
    assert Happens(lib, run, n);
    RunGuards(lib, run, n);
    if q < |run.states[n].processes| {
      assert SoundProcess(lib, run.states[n], run.states[n].processes[q]);
    }
    StepReplies(lib, run.states[n], run.actions[n], q);
  }

  /** Every observation row was recorded by an earlier step of the run. */
  lemma {:induction false} RowsAreRecorded(lib: Library, run: Run, n: nat, identity: string)
    requires IsRun(lib, run) && n <= |run.actions| && identity in run.states[n].observations
    ensures exists u :: 0 <= u < n && RecordsRecover(run, u, identity, run.states[n].observations[identity])
  {
    if n > 0 {
      assert Happens(lib, run, n - 1);
      var s, a, t := run.states[n - 1], run.actions[n - 1], run.states[n];
      var row := t.observations[identity];
      if identity in s.observations && s.observations[identity] == row {
        RowsAreRecorded(lib, run, n - 1, identity);
        var u :| 0 <= u < n - 1 && RecordsRecover(run, u, identity, row);
      } else {
        RepliesBehind(lib, run, n - 1, a.process);
        assert RecordsRecover(run, n - 1, identity, row);
      }
    }
  }

  /** Step u recorded a recover of the wallet that clears it to register this name at this time. */
  ghost predicate ClearsRegistration(run: Run, u: nat, p: Process)
    requires u < |run.actions| < |run.states|
  {
    exists row, approval ::
      && RecordsRecover(run, u, p.request.identity, row) && p.now - row.observedAt <= 60
      && approval in p.names && approval.name == p.request.name && approval.sparkIdentity == p.request.identity
      && approval.registration && row.name in {None, Some(p.request.name), approval.replacing}
  }

  /** A register in progress has its approval. */
  lemma StepApproves(lib: Library, s: Gateway, a: Action, q: nat)
    requires Enabled(s, a) && q < |Next(lib, s, a).processes|
    requires q < |s.processes| ==> SoundProcess(lib, s, s.processes[q]) && ApprovedRegister(s.processes[q])
    ensures ApprovedRegister(Next(lib, s, a).processes[q])
  {
  }

  /** It gets past its observation check only over an admitting row. */
  lemma StepClears(lib: Library, s: Gateway, a: Action, q: nat)
    requires Enabled(s, a) && q < |Next(lib, s, a).processes|
    requires Next(lib, s, a).processes[q].request.operation == Register && Cleared(Next(lib, s, a).processes[q])
    requires q < |s.processes| ==> SoundProcess(lib, s, s.processes[q]) && ApprovedRegister(s.processes[q])
    ensures q < |s.processes|
    ensures var p := Next(lib, s, a).processes[q];
            && p.request == s.processes[q].request && p.names == s.processes[q].names
            && p.now == s.processes[q].now
            && (Cleared(s.processes[q]) || AdmittedNow(s, s.processes[q]))
  {
  }

  /** The register is past its observation check. */
  predicate Cleared(p: Process)
  {
    p.phase in {AwaitClaim, AwaitForward, AwaitReply} || p.claimed
  }

  predicate ApprovedRegister(p: Process)
  {
    p.request.operation == Register && (p.phase != Ended || p.claimed) ==>
      var approval := FindApproval(p.names, p.request.name, p.request.identity);
      approval.Some? && approval.value.registration
  }

  /** The wallet's row admits the register, and its approval allows registration. */
  predicate AdmittedNow(s: Gateway, p: Process)
  {
    var approval := FindApproval(p.names, p.request.name, p.request.identity);
    && approval.Some? && approval.value.registration
    && p.request.identity in s.observations
    && Admits(s.observations[p.request.identity], p.request.name, approval.value, p.now)
  }

  lemma {:induction false} RegistersAreApproved(lib: Library, run: Run, n: nat, q: nat)
    requires IsRun(lib, run) && n <= |run.actions| && q < |run.states[n].processes|
    ensures ApprovedRegister(run.states[n].processes[q])
  {
    if n > 0 {
      if q < |run.states[n - 1].processes| {
        RegistersAreApproved(lib, run, n - 1, q);
      }
      RunGuards(lib, run, n - 1);
      assert Happens(lib, run, n - 1);
      StepApproves(lib, run.states[n - 1], run.actions[n - 1], q);
    }
  }

  lemma RunStepClears(lib: Library, run: Run, n: nat, q: nat)
    requires IsRun(lib, run) && n < |run.actions| && q < |run.states[n + 1].processes|
    requires run.states[n + 1].processes[q].request.operation == Register && Cleared(run.states[n + 1].processes[q])
    ensures q < |run.states[n].processes|
    ensures var o, p := run.states[n].processes[q], run.states[n + 1].processes[q];
            && p.request == o.request && p.names == o.names && p.now == o.now
            && (Cleared(o) || AdmittedNow(run.states[n], o))
  {
    if q < |run.states[n].processes| {
      RegistersAreApproved(lib, run, n, q);
    }
    RunGuards(lib, run, n);
    assert Happens(lib, run, n);
    StepClears(lib, run.states[n], run.actions[n], q);
  }

  lemma {:induction false} RegistrationsAreCleared(lib: Library, run: Run, n: nat, q: nat)
    requires IsRun(lib, run) && n <= |run.actions| && q < |run.states[n].processes|
    requires run.states[n].processes[q].request.operation == Register && Cleared(run.states[n].processes[q])
    ensures exists u :: 0 <= u < n && ClearsRegistration(run, u, run.states[n].processes[q])
  {
    if n > 0 {
      var p := run.states[n].processes[q];
      RunStepClears(lib, run, n - 1, q);
      var s, o := run.states[n - 1], run.states[n - 1].processes[q];
      if Cleared(o) {
        RegistrationsAreCleared(lib, run, n - 1, q);
        var u :| 0 <= u < n - 1 && ClearsRegistration(run, u, o);
        assert ClearsRegistration(run, u, p);
      } else {
        RowsAreRecorded(lib, run, n - 1, p.request.identity);
        var row := s.observations[p.request.identity];
        var u :| 0 <= u < n - 1 && RecordsRecover(run, u, p.request.identity, row);
        assert ClearsRegistration(run, u, p);
      }
    }
  }

  /**
    Every register that goes upstream is preceded in the run by a recorded recover of the same
    wallet, no more than 60 seconds older than the register's own clock, whose reply named nothing,
    the requested name, or the name an approval lets it replace.
   */
  lemma RegistersFollowRecoveries(lib: Library, run: Run, n: nat)
    requires IsRun(lib, run) && n < |run.actions| && run.actions[n].Forwards?
    requires run.actions[n].process < |run.states[n].processes|
    requires run.states[n].processes[run.actions[n].process].request.operation == Register
    ensures exists u :: 0 <= u < n && ClearsRegistration(run, u, run.states[n].processes[run.actions[n].process])
  {
    assert Happens(lib, run, n);
    RegistrationsAreCleared(lib, run, n, run.actions[n].process);
  }

  /** As long as a wallet's row is not deleted, its observation time never goes back. */
  lemma {:induction false} ObservationsAdvance(lib: Library, run: Run, m: nat, n: nat, identity: string)
    requires IsRun(lib, run) && m <= n <= |run.actions|
    requires forall k :: m <= k <= n ==> identity in run.states[k].observations
    ensures run.states[m].observations[identity].observedAt <= run.states[n].observations[identity].observedAt
  {
    if m < n {
      ObservationsAdvance(lib, run, m, n - 1, identity);
      assert Happens(lib, run, n - 1);
    }
  }

  // ----- what a forwarded mutation has behind it -----

  /** A request under way has passed the checks that come before any SQL statement. */
  predicate IsScreened(lib: Library, p: Process)
  {
    p.phase != Ended || p.claimed || p.forwarded ==> Screen(lib, p.names, p.request, p.now).Success?
  }

  /** A mutation at its claim or past it has its owner's account proof. */
  predicate IsProved(p: Process)
  {
    p.request.operation.IsMutation() && (p.phase in {AwaitClaim, AwaitForward, AwaitReply} || p.claimed) ==>
      var approval := FindApproval(p.names, p.request.name, p.request.identity);
      approval.Some? && ValidAccountProof(p.request.account, approval.value.ownerPubkey, p.now)
  }

  lemma StepScreens(lib: Library, s: Gateway, a: Action, q: nat)
    requires Enabled(s, a) && q < |Next(lib, s, a).processes|
    requires q < |s.processes| ==> IsScreened(lib, s.processes[q])
    ensures IsScreened(lib, Next(lib, s, a).processes[q])
  {
    if q < |s.processes| && Actor(a) != Some(q) {
      NextLeavesOthers(lib, s, a, q);
    }
  }

  lemma StepProves(lib: Library, s: Gateway, a: Action, q: nat)
    requires Enabled(s, a) && q < |Next(lib, s, a).processes|
    requires q < |s.processes| ==> IsProved(s.processes[q])
    ensures IsProved(Next(lib, s, a).processes[q])
  {
    if q < |s.processes| && Actor(a) != Some(q) {
      NextLeavesOthers(lib, s, a, q);
    } else {
      ActorIsProved(lib, s, a, q);
    }
  }

  lemma ActorIsProved(lib: Library, s: Gateway, a: Action, q: nat)
    requires Enabled(s, a) && q < |Next(lib, s, a).processes| && (Actor(a) == Some(q) || q >= |s.processes|)
    requires q < |s.processes| ==> IsProved(s.processes[q])
    ensures IsProved(Next(lib, s, a).processes[q])
  {
    if a.Arrives? {
      ArrivalIsProved(lib, s, a, q);
    } else {
      ActorKeepsProof(lib, s, a, q);
    }
  }

  lemma ArrivalIsProved(lib: Library, s: Gateway, a: Action, q: nat)
    requires a.Arrives? && |s.processes| <= q < |Next(lib, s, a).processes|
    ensures IsProved(Next(lib, s, a).processes[q])
  {
  }

  lemma ActorKeepsProof(lib: Library, s: Gateway, a: Action, q: nat)
    requires Enabled(s, a) && Actor(a) == Some(q) && q < |s.processes| && IsProved(s.processes[q])
    ensures q < |Next(lib, s, a).processes| && IsProved(Next(lib, s, a).processes[q])
  {
  }

  lemma {:induction false} RunScreens(lib: Library, run: Run, n: nat, q: nat)
    requires IsRun(lib, run) && n <= |run.actions| && q < |run.states[n].processes|
    ensures IsScreened(lib, run.states[n].processes[q]) && IsProved(run.states[n].processes[q])
  {
    if n > 0 {
      if q < |run.states[n - 1].processes| {
        RunScreens(lib, run, n - 1, q);
      }
      assert Happens(lib, run, n - 1);
      StepScreens(lib, run.states[n - 1], run.actions[n - 1], q);
      StepProves(lib, run.states[n - 1], run.actions[n - 1], q);
    }
  }

  /** The lines that a request's own wallet signs, or, for a transfer, those of the two wallets. */
  ghost function WalletLines(lib: Library, r: Request): seq<seq<string>>
  {
    var version, domain, time := "breez-lnurl:v2", "conduit.cash", IntText(r.timestamp);
    match r.operation
    case Register => [[version, "register", domain, r.name, lib.hash(r.description), time]]
    case Unregister => [[version, "unregister", domain, r.name, time]]
    case Recover => [[version, "recover", domain, r.identity, time]]
    case Available => [[version, "available", domain, r.identity, r.name, time]]
    case Transfer =>
      [[version, "transfer-from", domain, r.name, r.fromPubkey, r.identity, time],
       [version, "transfer-to", domain, r.name, r.fromPubkey, r.identity, lib.hash(r.description), time]]
  }

  lemma StatementsAreLines(lib: Library, r: Request)
    ensures |Statements(lib, r)| == |WalletLines(lib, r)|
    ensures forall i :: 0 <= i < |Statements(lib, r)| ==> Statements(lib, r)[i] == Join(WalletLines(lib, r)[i], '\n')
  {
  }

  /** A deadline that has not passed and is at most a day away. */
  ghost predicate IsOpen(until: Option<int>, now: int)
  {
    until.Some? && now <= until.value <= now + 86_400
  }

  /** The wallets concerned signed the request. */
  ghost predicate IsSigned(lib: Library, r: Request)
  {
    var lines := WalletLines(lib, r);
    if r.operation == Transfer then
      && lib.walletSigned(Join(lines[0], '\n'), r.fromSignature, r.fromPubkey)
      && lib.walletSigned(Join(lines[1], '\n'), r.toSignature, r.identity)
    else lib.walletSigned(Join(lines[0], '\n'), r.signature, r.identity)
  }

  /** The registry entry allows what is asked of its name and wallet. */
  ghost predicate Allows(n: ApprovedName, r: Request, now: int)
  {
    && n.name == r.name && n.sparkIdentity == r.identity
    && match r.operation
       case Register => n.registration
       case Available => n.registration
       case Unregister => IsOpen(n.deleteUntil, now)
       case Transfer =>
         n.transferFrom == Some(r.fromPubkey) && r.fromPubkey != r.identity && IsOpen(n.transferUntil, now)
       case Recover => true
  }

  /** The account that owns the entry proved the request, within a minute. */
  ghost predicate IsOwners(n: ApprovedName, r: Request, now: int)
  {
    && r.account.Some? && r.account.value.pubkey == n.ownerPubkey && r.account.value.verified
    && r.account.value.boundToRequest && -60 <= now - r.account.value.createdAt <= 60
  }

  /** The request is about a wallet and, but for a recover, a name, is at most ten minutes off, and not too long. */
  ghost predicate IsProper(lib: Library, r: Request, now: int)
  {
    && lib.isIdentity(r.identity) && -600 <= now - r.timestamp <= 600
    && |r.description| <= 1_024 && (r.operation == Recover || IsDotted(r.name))
  }

  /** The registry entry, and the proofs by wallets and owner, that each mutation needs. */
  ghost predicate IsAuthorised(lib: Library, p: Process, approval: ApprovedName)
  {
    && IsProper(lib, p.request, p.now) && IsSigned(lib, p.request)
    && approval in p.names && Allows(approval, p.request, p.now) && IsOwners(approval, p.request, p.now)
  }

  /**
    Every mutation that goes upstream is approved in the registry its request was handed, inside the
    approval's window if it has one, signed by every wallet concerned within ten minutes, and proved
    by the owner's account within one minute.
   */
  lemma ForwardedMutationsAreAuthorised(lib: Library, run: Run, n: nat)
    requires IsRun(lib, run) && n < |run.actions| && run.actions[n].Forwards?
    requires run.actions[n].process < |run.states[n].processes|
    requires run.states[n].processes[run.actions[n].process].request.operation.IsMutation()
    ensures exists approval :: IsAuthorised(lib, run.states[n].processes[run.actions[n].process], approval)
  {
    var q := run.actions[n].process;
    var p := run.states[n].processes[q];
    assert Happens(lib, run, n);
    RunScreens(lib, run, n, q);
    var approval := FindApproval(p.names, p.request.name, p.request.identity).value;
    ScreenedIsAuthorised(lib, p, approval);
  }

  lemma ScreenedIsAuthorised(lib: Library, p: Process, approval: ApprovedName)
    requires p.request.operation.IsMutation() && Screen(lib, p.names, p.request, p.now).Success?
    requires FindApproval(p.names, p.request.name, p.request.identity) == Some(approval)
    requires ValidAccountProof(p.request.account, approval.ownerPubkey, p.now)
    ensures IsAuthorised(lib, p, approval)
  {
    StatementsAreLines(lib, p.request);
    NamesAreDotted(p.request.name);
  }
}
