/** The relay server as a state machine over any number of connections, with its event log. */
module RelaySession {
  import opened Wrappers
  import opened RelayEvents
  import opened RelayStore
  import opened RelayQuery

  const GIFT_WRAP_KIND: nat := 1_059
  const NIP42_AUTH_KIND: nat := 22_242
  const NIP42_AUTH_FRESHNESS_SECONDS := 10 * 60

  datatype FaultMode = NoFault | RejectWrites | DropAcks | DelayReads | PartialReads

  datatype Config = Config(
    verify: Verifier,
    faultMode: FaultMode,
    readDelayMs: nat,
    partialReadLimit: nat,
    persistence: bool,
    relayUrl: string)
  {
    function Delay(): nat
    {
      if faultMode == DelayReads then readDelayMs else 0
    }

    function ReadLimit(): Option<nat>
    {
      if faultMode == PartialReads then Some(partialReadLimit) else None
    }
  }

  datatype Subscription = Subscription(id: string, filters: seq<Filter>)

  datatype Client = Client(
    subscriptions: seq<Subscription>,
    challenge: string,
    authenticatedPubkey: Option<string>)

  /** A broadcast waiting for its delay. */
  datatype Timer = Timer(event: Event, dueAt: int)

  /** Connections keep their number; a closed one leaves None behind. */
  datatype Server = Server(
    store: Contents,
    log: seq<Event>,
    clients: seq<Option<Client>>,
    timers: seq<Timer>)

  datatype Frame =
    | EventFrame(subscription: string, event: Event)
    | OkFrame(id: string, accepted: bool, message: string)
    | ClosedFrame(subscription: string, reason: string)
    | NoticeFrame(text: string)
    | AuthFrame(challenge: string)
    | EoseFrame(subscription: string)

  datatype Delivery = Delivery(conn: nat, frame: Frame)

  /** What a message may carry in place of an event that does not even parse is None. */
  function NormalizeEvent(verify: Verifier, raw: Option<Event>): Option<Event>
  {
    if raw.Some? && raw.value.kind <= 65_535 && [] !in raw.value.tags && verify(raw.value)
    then raw else None
  }

  // ----- protected reads -----

  datatype ReadPlan = PublicRead | InvalidRead | ProtectedRead(recipient: string)

  predicate TouchesGiftWraps(f: Filter)
  {
    f.kinds.None? || GIFT_WRAP_KIND in f.kinds.value
  }

  /** The filter asks for gift wraps only, and for exactly one well-formed recipient. */
  predicate AddressedTo(f: Filter, recipient: string)
  {
    && f.kinds == Some([GIFT_WRAP_KIND])
    && "p" in f.tags && f.tags["p"] == [recipient]
    && IsHexIdentifier(recipient)
  }

  predicate AllAddressedTo(filters: seq<Filter>, recipient: string)
  {
    forall i :: 0 <= i < |filters| ==> AddressedTo(filters[i], recipient)
  }

  function FirstRecipient(filters: seq<Filter>): string
  {
    if filters != [] && "p" in filters[0].tags && filters[0].tags["p"] != []
    then filters[0].tags["p"][0] else ""
  }

  function PlanFor(filters: seq<Filter>): ReadPlan
  {
    if forall i :: 0 <= i < |filters| ==> !TouchesGiftWraps(filters[i]) then PublicRead
    else if AllAddressedTo(filters, FirstRecipient(filters)) then ProtectedRead(FirstRecipient(filters))
    else InvalidRead
  }

  /**
    The plan's point: a public read's filters match no gift wrap at all, and a protected read's
    filters match only gift wraps with a p tag for the one recipient.
   */
  lemma PlanGuardsGiftWraps(filters: seq<Filter>, e: Event, i: nat)
    requires e.kind == GIFT_WRAP_KIND && i < |filters| && Matches(e, filters[i])
    requires PlanFor(filters) != InvalidRead
    ensures PlanFor(filters).ProtectedRead?
    ensures exists tag :: tag in e.tags && ["p", PlanFor(filters).recipient] <= tag
  {
    assert TouchesGiftWraps(filters[i]);
    var recipient := FirstRecipient(filters);
    assert AddressedTo(filters[i], recipient);
    var k :| 0 <= k < |e.tags| && TagMatches(e.tags[k], "p", [recipient]);
    assert e.tags[k] in e.tags && ["p", recipient] <= e.tags[k];
  }

  // ----- message handlers -----

  function SetSubscription(subs: seq<Subscription>, id: string, filters: seq<Filter>): seq<Subscription>
  {
    if subs == [] then [Subscription(id, filters)]
    else if subs[0].id == id then [Subscription(id, filters)] + subs[1..]
    else [subs[0]] + SetSubscription(subs[1..], id, filters)
  }

  function DropSubscription(subs: seq<Subscription>, id: string): seq<Subscription>
  {
    if subs == [] then []
    else if subs[0].id == id then subs[1..]
    else [subs[0]] + DropSubscription(subs[1..], id)
  }

  predicate SomeFilterMatches(filters: seq<Filter>, e: Event)
  {
    exists i :: 0 <= i < |filters| && Matches(e, filters[i])
  }

  function SubscriptionFrames(conn: nat, subs: seq<Subscription>, e: Event): seq<Delivery>
  {
    if subs == [] then []
    else
      SubscriptionFrames(conn, subs[..|subs| - 1], e) +
      (var last := subs[|subs| - 1];
       if SomeFilterMatches(last.filters, e) then [Delivery(conn, EventFrame(last.id, e))] else [])
  }

  /** One frame per matching subscription of each open connection, in order of connection. */
  function BroadcastFrames(clients: seq<Option<Client>>, e: Event): seq<Delivery>
  {
    if clients == [] then []
    else
      var conn := |clients| - 1;
      BroadcastFrames(clients[..conn], e) +
      (if clients[conn].None? then [] else SubscriptionFrames(conn, clients[conn].value.subscriptions, e))
  }

  /** The EVENT handler, given what the store call would do and report. */
  function HandleEventWith(cfg: Config, s: Server, conn: nat, claimedId: string, raw: Option<Event>, now: int,
                           outcome: (Contents, Status))
    : (Server, seq<Delivery>)
  {
    match NormalizeEvent(cfg.verify, raw)
    case None =>
      (s, [Delivery(conn, OkFrame(claimedId, false, "invalid: event id or signature verification failed"))])
    case Some(e) =>
      if cfg.faultMode == RejectWrites then
        (s, [Delivery(conn, OkFrame(e.id, false, "blocked: injected write rejection"))])
      else
        AfterStore(cfg, s.(store := outcome.0), conn, e, outcome.1, now)
  }

  function HandleEvent(cfg: Config, s: Server, conn: nat, claimedId: string, raw: Option<Event>, now: int)
    : (Server, seq<Delivery>)
  {
    HandleEventWith(cfg, s, conn, claimedId, raw, now,
                    if raw.Some? then StoreOne(cfg.verify, s.store, raw.value, now + cfg.Delay())
                    else (s.store, Invalid))
  }

  /** What follows a store call: logging, broadcasting and acknowledging, as its status says. */
  function AfterStore(cfg: Config, s: Server, conn: nat, e: Event, status: Status, now: int)
    : (Server, seq<Delivery>)
  {
    if !status.Accepted() then
      (s, [Delivery(conn, OkFrame(e.id, false,
                                  if status == Superseded then "duplicate: newer replaceable event already stored"
                                  else "invalid: event id or signature verification failed"))])
    else
      var log := if cfg.persistence && status == Stored then s.log + [e] else s.log;
      var delayed := e.kind != NIP42_AUTH_KIND && cfg.Delay() > 0;
      var timers := if delayed then s.timers + [Timer(e, now + cfg.Delay())] else s.timers;
      var frames := if e.kind != NIP42_AUTH_KIND && !delayed then BroadcastFrames(s.clients, e) else [];
      var ack := if cfg.faultMode == DropAcks then [] else
                   [Delivery(conn, OkFrame(e.id, true,
                                           if status == Duplicate then "duplicate: accepted" else "saved"))];
      (s.(log := log, timers := timers), frames + ack)
  }

  predicate Live(s: Server, conn: nat)
  {
    conn < |s.clients| && s.clients[conn].Some?
  }

  function WithClient(s: Server, conn: nat, client: Client): Server
    requires conn < |s.clients|
  {
    s.(clients := s.clients[conn := Some(client)])
  }

  predicate Accepts(client: Client, filters: seq<Filter>)
  {
    match PlanFor(filters)
    case PublicRead => true
    case InvalidRead => false
    case ProtectedRead(recipient) => client.authenticatedPubkey == Some(recipient)
  }

  predicate WellFormed(filters: seq<Option<Filter>>)
  {
    filters != [] && None !in filters
  }

  function Parsed(filters: seq<Option<Filter>>): (parsed: seq<Filter>)
    requires None !in filters
    ensures |parsed| == |filters|
  {
    seq(|filters|, i requires 0 <= i < |filters| =>
      assert filters[i] in filters;
      filters[i].value)
  }

  function EventFrames(conn: nat, subscription: string, events: seq<Event>): (frames: seq<Delivery>)
    ensures |frames| == |events|
    ensures forall i :: 0 <= i < |events| ==> frames[i] == Delivery(conn, EventFrame(subscription, events[i]))
  {
    seq(|events|, i requires 0 <= i < |events| => Delivery(conn, EventFrame(subscription, events[i])))
  }

  /** The answer to a REQ that opens no subscription, if that is what the REQ gets. */
  function Refusal(client: Client, conn: nat, subscription: string, filters: seq<Option<Filter>>)
    : (refusal: Option<seq<Delivery>>)
    ensures refusal.None? <==> WellFormed(filters) && Accepts(client, Parsed(filters))
    ensures refusal.Some? ==> forall d :: d in refusal.value ==> !d.frame.EventFrame?
  {
    if !WellFormed(filters) then
      Some([Delivery(conn, ClosedFrame(subscription, "invalid: malformed filter"))])
    else
      match PlanFor(Parsed(filters))
      case PublicRead => None
      case InvalidRead =>
        Some([Delivery(conn, ClosedFrame(subscription,
                                         "restricted: protected reads require one authenticated recipient"))])
      case ProtectedRead(recipient) =>
        if client.authenticatedPubkey.None? then
          Some([Delivery(conn, AuthFrame(client.challenge)),
                Delivery(conn, ClosedFrame(subscription, "auth-required: authenticate for protected reads"))])
        else if client.authenticatedPubkey.value != recipient then
          Some([Delivery(conn, ClosedFrame(subscription,
                                           "restricted: authenticated account does not match recipient"))])
        else None
  }

  /** `read` is what the store's query returns for the parsed filters. */
  function HandleReq(s: Server, conn: nat, subscription: string, filters: seq<Option<Filter>>, read: seq<Event>)
    : (Server, seq<Delivery>)
    requires Live(s, conn)
  {
    match Refusal(s.clients[conn].value, conn, subscription, filters)
    case Some(frames) => (s, frames)
    case None => Subscribe(s, conn, subscription, Parsed(filters), read)
  }

  function Subscribe(s: Server, conn: nat, subscription: string, filters: seq<Filter>, read: seq<Event>)
    : (Server, seq<Delivery>)
    requires Live(s, conn)
  {
    var client := s.clients[conn].value;
    (WithClient(s, conn, client.(subscriptions := SetSubscription(client.subscriptions, subscription, filters))),
     EventFrames(conn, subscription, read) + [Delivery(conn, EoseFrame(subscription))])
  }

  predicate HasPair(e: Event, name: string, value: string)
  {
    exists i :: 0 <= i < |e.tags| && |e.tags[i]| > 1 && e.tags[i][0] == name && e.tags[i][1] == value
  }

  predicate ValidAuth(cfg: Config, challenge: string, e: Event, now: int)
  {
    && e.kind == NIP42_AUTH_KIND && e.content == ""
    && -NIP42_AUTH_FRESHNESS_SECONDS <= now / 1_000 - e.createdAt <= NIP42_AUTH_FRESHNESS_SECONDS
    && HasPair(e, "challenge", challenge)
    && HasPair(e, "relay", cfg.relayUrl)
  }

  function HandleAuth(cfg: Config, s: Server, conn: nat, raw: Option<Event>, now: int): (Server, seq<Delivery>)
    requires Live(s, conn)
  {
    var client := s.clients[conn].value;
    match NormalizeEvent(cfg.verify, raw)
    case None => (s, [Delivery(conn, OkFrame("", false, "invalid: NIP-42 authentication failed"))])
    case Some(e) =>
      if !ValidAuth(cfg, client.challenge, e, now) then
        (s, [Delivery(conn, OkFrame(e.id, false, "invalid: NIP-42 authentication failed"))])
      else
        (WithClient(s, conn, client.(authenticatedPubkey := Some(e.pubkey))),
         [Delivery(conn, OkFrame(e.id, true, "authenticated"))])
  }

  // ----- replaying the log -----

  /** Log lines that still normalise, as arrivals at restart time. */
  function LoggedArrivals(verify: Verifier, log: seq<Event>, now: int): seq<Arrival>
  {
    if log == [] then []
    else
      var last := log[|log| - 1];
      LoggedArrivals(verify, log[..|log| - 1], now) +
      (if NormalizeEvent(verify, Some(last)).Some? then [Arrival(last, now)] else [])
  }

  function Replay(verify: Verifier, log: seq<Event>, now: int): Contents
  {
    StoreAll(verify, EMPTY, LoggedArrivals(verify, log, now))
  }

  // ----- runs -----

  datatype Action =
    | Open(challenge: string)
    | Disconnect(conn: nat)
    | Publish(conn: nat, claimedId: string, raw: Option<Event>, now: int)
    | Request(conn: nat, subscription: string, filters: seq<Option<Filter>>, clock: Clock)
    | Unsubscribe(conn: nat, subscription: string)
    | Authenticate(conn: nat, raw: Option<Event>, now: int)
    | Unsupported(conn: nat, notice: string)
    | TimerFires(index: nat, now: int)
    | Restart(now: int)

  function Started(verify: Verifier, log: seq<Event>, connections: nat, now: int): Server
  {
    Server(Replay(verify, log, now), log, seq(connections, i => None), [])
  }

  ghost predicate Step(cfg: Config, s: Server, a: Action, t: Server, out: seq<Delivery>)
  {
    match a
    case Open(challenge) =>
      t == s.(clients := s.clients + [Some(Client([], challenge, None))]) && out == []
    case Disconnect(conn) =>
      Live(s, conn) && t == s.(clients := s.clients[conn := None]) && out == []
    case Publish(conn, claimedId, raw, now) =>
      Live(s, conn) && (t, out) == HandleEvent(cfg, s, conn, claimedId, raw, now)
    case Request(conn, subscription, filters, clock) =>
      && Live(s, conn)
      && exists read ::
           && (WellFormed(filters) ==> IsRead(s.store, Parsed(filters), cfg.ReadLimit(), clock, read))
           && (t, out) == HandleReq(s, conn, subscription, filters, read)
    case Unsubscribe(conn, subscription) =>
      && Live(s, conn) && out == []
      && var client := s.clients[conn].value;
         t == WithClient(s, conn, client.(subscriptions := DropSubscription(client.subscriptions, subscription)))
    case Authenticate(conn, raw, now) =>
      Live(s, conn) && (t, out) == HandleAuth(cfg, s, conn, raw, now)
    case Unsupported(conn, notice) =>
      Live(s, conn) && t == s && out == [Delivery(conn, NoticeFrame(notice))]
    case TimerFires(index, now) =>
      && index < |s.timers| && s.timers[index].dueAt <= now
      && t == s.(timers := s.timers[..index] + s.timers[index + 1..])
      && out == BroadcastFrames(s.clients, s.timers[index].event)
    case Restart(now) =>
      t == Started(cfg.verify, s.log, |s.clients|, now) && out == []
  }

  /** A complete history: the server before and after each action, and what each action sent. */
  datatype Run = Run(states: seq<Server>, actions: seq<Action>, sent: seq<seq<Delivery>>)

  /** The n-th action of the history is a step of the server, and sent what the step sends. */
  ghost predicate Happens(cfg: Config, run: Run, n: nat)
    requires |run.states| == |run.actions| + 1 && |run.sent| == |run.actions| && n < |run.actions|
  {
    Step(cfg, run.states[n], run.actions[n], run.states[n + 1], run.sent[n])
  }

  ghost predicate IsRun(cfg: Config, run: Run, firstLog: seq<Event>, start: int)
  {
    && |run.states| == |run.actions| + 1 && |run.sent| == |run.actions|
    && (cfg.persistence || firstLog == [])
    && run.states[0] == Started(cfg.verify, firstLog, 0, start)
    && forall n :: 0 <= n < |run.actions| ==> Happens(cfg, run, n)
  }

  // ----- where the authority of a frame comes from -----

  /**
    The event proves that its sender holds `key`, to the connection that was given this challenge: a
    verified AUTH event of that key, at most ten minutes away from the clock, that repeats the
    challenge and the address of this relay in tags of its own.
   */
  ghost predicate ProvesKey(cfg: Config, challenge: string, e: Event, now: int, key: string)
  {
    && e.pubkey == key && cfg.verify(e) && e.kind == 22_242 && e.content == ""
    && (exists tag :: tag in e.tags && ["challenge", challenge] <= tag)
    && (exists tag :: tag in e.tags && ["relay", cfg.relayUrl] <= tag)
    && -600 <= now / 1_000 - e.createdAt <= 600
  }

  /** Step i of the run authenticated `conn` as `key`, by an answer to that connection's own challenge. */
  ghost predicate AuthenticatedAt(cfg: Config, run: Run, i: nat, conn: nat, key: string)
    requires i < |run.actions| < |run.states|
  {
    var a := run.actions[i];
    && a.Authenticate? && a.conn == conn && Live(run.states[i], conn)
    && a.raw.Some? && ProvesKey(cfg, run.states[i].clients[conn].value.challenge, a.raw.value, a.now, key)
  }

  /** The action opens subscription `id` of `conn`, or replaces the one of that name. */
  ghost predicate Opens(s: Server, a: Action, conn: nat, id: string)
  {
    && a.Request? && a.conn == conn && a.subscription == id && Live(s, conn)
    && WellFormed(a.filters) && Accepts(s.clients[conn].value, Parsed(a.filters))
  }

  /** The action is one after which an earlier subscription `id` of `conn` is no longer in force. */
  ghost predicate Ends(s: Server, a: Action, conn: nat, id: string)
  {
    a == Disconnect(conn) || a == Unsubscribe(conn, id) || a.Restart? || Opens(s, a, conn, id)
  }

  /** Step j of the run accepted subscription `id` of `conn` with these filters. */
  ghost predicate SubscribedAt(run: Run, j: nat, conn: nat, id: string, filters: seq<Filter>)
    requires j < |run.actions| < |run.states|
  {
    Opens(run.states[j], run.actions[j], conn, id) && Parsed(run.actions[j].filters) == filters
  }

  /** Nothing after step j and before step n closed, replaced or dropped the subscription. */
  ghost predicate StillOpen(run: Run, j: nat, n: nat, conn: nat, id: string)
    requires n <= |run.actions| < |run.states|
  {
    forall k :: j < k < n ==> !Ends(run.states[k], run.actions[k], conn, id)
  }

  /** Every held identity was proved, by some earlier step of the same run. */
  ghost predicate AuthorityExplained(cfg: Config, run: Run, n: nat, conn: nat)
    requires n <= |run.actions| < |run.states|
  {
    Live(run.states[n], conn) && run.states[n].clients[conn].value.authenticatedPubkey.Some? ==>
      exists i :: 0 <= i < n &&
        AuthenticatedAt(cfg, run, i, conn, run.states[n].clients[conn].value.authenticatedPubkey.value)
  }

  /** Every held subscription was accepted by some earlier step and is still in force. */
  ghost predicate SubscriptionExplained(run: Run, n: nat, conn: nat, sub: Subscription)
    requires n <= |run.actions| < |run.states|
  {
    exists j :: 0 <= j < n && SubscribedAt(run, j, conn, sub.id, sub.filters) && StillOpen(run, j, n, conn, sub.id)
  }

  ghost predicate SubscriptionsExplained(run: Run, n: nat, conn: nat)
    requires n <= |run.actions| < |run.states|
  {
    Live(run.states[n], conn) ==>
      && UniqueIds(run.states[n].clients[conn].value.subscriptions)
      && forall sub :: sub in run.states[n].clients[conn].value.subscriptions ==>
           SubscriptionExplained(run, n, conn, sub)
  }

  ghost predicate UniqueIds(subs: seq<Subscription>)
  {
    forall i, j :: 0 <= i < j < |subs| ==> subs[i].id != subs[j].id
  }

  lemma {:induction false} SetSubscriptionMembers(subs: seq<Subscription>, id: string, filters: seq<Filter>)
    requires UniqueIds(subs)
    ensures var after := SetSubscription(subs, id, filters);
            && UniqueIds(after)
            && forall sub :: sub in after <==>
                 sub == Subscription(id, filters) || (sub in subs && sub.id != id)
  {
    if subs != [] {
      var tail := subs[1..];
      assert forall sub :: sub in subs <==> sub == subs[0] || sub in tail;
      if subs[0].id != id {
        SetSubscriptionMembers(tail, id, filters);
      }
    }
  }

  lemma {:induction false} DropSubscriptionMembers(subs: seq<Subscription>, id: string)
    requires UniqueIds(subs)
    ensures var after := DropSubscription(subs, id);
            && UniqueIds(after)
            && forall sub :: sub in after <==> sub in subs && sub.id != id
  {
    if subs != [] {
      var tail := subs[1..];
      assert forall sub :: sub in subs <==> sub == subs[0] || sub in tail;
      if subs[0].id != id {
        DropSubscriptionMembers(tail, id);
      }
    }
  }

  /** What a step does to the table of connections, whatever it does to the rest. */
  function ClientsAfter(cfg: Config, s: Server, a: Action): seq<Option<Client>>
  {
    match a
    case Open(challenge) => s.clients + [Some(Client([], challenge, None))]
    case Disconnect(conn) => if Live(s, conn) then s.clients[conn := None] else s.clients
    case Request(conn, subscription, filters, _) =>
      if Live(s, conn) && WellFormed(filters) && Accepts(s.clients[conn].value, Parsed(filters)) then
        var client := s.clients[conn].value;
        s.clients[conn := Some(client.(subscriptions :=
          SetSubscription(client.subscriptions, subscription, Parsed(filters))))]
      else s.clients
    case Unsubscribe(conn, subscription) =>
      if Live(s, conn) then
        var client := s.clients[conn].value;
        s.clients[conn := Some(client.(subscriptions := DropSubscription(client.subscriptions, subscription)))]
      else s.clients
    case Authenticate(conn, raw, now) =>
      if Live(s, conn) && NormalizeEvent(cfg.verify, raw).Some? &&
         ValidAuth(cfg, s.clients[conn].value.challenge, raw.value, now)
      then s.clients[conn := Some(s.clients[conn].value.(authenticatedPubkey := Some(raw.value.pubkey)))]
      else s.clients
    case Restart(_) => seq(|s.clients|, i => None)
    case _ => s.clients
  }

  lemma HandleEventClients(cfg: Config, s: Server, conn: nat, claimedId: string, raw: Option<Event>, now: int,
                           outcome: (Contents, Status))
    ensures HandleEventWith(cfg, s, conn, claimedId, raw, now, outcome).0.clients == s.clients
  {
  }

  lemma HandleReqClients(cfg: Config, s: Server, conn: nat, subscription: string,
                         filters: seq<Option<Filter>>, read: seq<Event>, clock: Clock)
    requires Live(s, conn)
    ensures HandleReq(s, conn, subscription, filters, read).0.clients ==
            ClientsAfter(cfg, s, Request(conn, subscription, filters, clock))
  {
  }

  lemma HandleAuthClients(cfg: Config, s: Server, conn: nat, raw: Option<Event>, now: int)
    requires Live(s, conn)
    ensures HandleAuth(cfg, s, conn, raw, now).0.clients == ClientsAfter(cfg, s, Authenticate(conn, raw, now))
  {
  }

  lemma StepClients(cfg: Config, s: Server, a: Action, t: Server, out: seq<Delivery>)
    requires Step(cfg, s, a, t, out)
    ensures t.clients == ClientsAfter(cfg, s, a)
  {
    match a {
      case Publish(conn, claimedId, raw, now) =>
        HandleEventClients(cfg, s, conn, claimedId, raw, now,
                           if raw.Some? then StoreOne(cfg.verify, s.store, raw.value, now + cfg.Delay())
                           else (s.store, Invalid));
      case Request(conn, subscription, filters, clock) =>
        var read :| (WellFormed(filters) ==> IsRead(s.store, Parsed(filters), cfg.ReadLimit(), clock, read)) &&
                    (t, out) == HandleReq(s, conn, subscription, filters, read);
        HandleReqClients(cfg, s, conn, subscription, filters, read, clock);
      case Authenticate(conn, raw, now) => HandleAuthClients(cfg, s, conn, raw, now);
      case _ =>
    }
  }

  lemma RunClients(cfg: Config, run: Run, firstLog: seq<Event>, start: int, n: nat)
    requires IsRun(cfg, run, firstLog, start) && n < |run.actions|
    ensures run.states[n + 1].clients == ClientsAfter(cfg, run.states[n], run.actions[n])
  {
    assert Happens(cfg, run, n);
    StepClients(cfg, run.states[n], run.actions[n], run.states[n + 1], run.sent[n]);
  }

  lemma PairIsPrefix(e: Event, name: string, value: string)
    ensures HasPair(e, name, value) <==> exists tag :: tag in e.tags && [name, value] <= tag
  {
    if HasPair(e, name, value) {
      var i :| 0 <= i < |e.tags| && |e.tags[i]| > 1 && e.tags[i][0] == name && e.tags[i][1] == value;
      assert e.tags[i] in e.tags && [name, value] <= e.tags[i];
    }
    if tag :| tag in e.tags && [name, value] <= tag {
      var i :| 0 <= i < |e.tags| && e.tags[i] == tag;
      assert |e.tags[i]| > 1 && e.tags[i][0] == name && e.tags[i][1] == value;
    }
  }

  lemma ValidAuthProves(cfg: Config, challenge: string, e: Event, now: int)
    ensures NormalizeEvent(cfg.verify, Some(e)).Some? && ValidAuth(cfg, challenge, e, now) <==>
              ProvesKey(cfg, challenge, e, now, e.pubkey) && [] !in e.tags
  {
    PairIsPrefix(e, "challenge", challenge);
    PairIsPrefix(e, "relay", cfg.relayUrl);
  }

  /** What an AUTH does: the identity it proves is taken on, or nothing changes; the answer says which. */
  ghost predicate AnswersAuth(cfg: Config, s: Server, conn: nat, raw: Option<Event>, now: int, t: Server,
                              out: seq<Delivery>)
    requires Live(s, conn)
  {
    var client := s.clients[conn].value;
    if raw.Some? && [] !in raw.value.tags && ProvesKey(cfg, client.challenge, raw.value, now, raw.value.pubkey) then
      && t == s.(clients := s.clients[conn := Some(client.(authenticatedPubkey := Some(raw.value.pubkey)))])
      && out == [Delivery(conn, OkFrame(raw.value.id, true, "authenticated"))]
    else
      t == s && exists id :: out == [Delivery(conn, OkFrame(id, false, "invalid: NIP-42 authentication failed"))]
  }

  /** In every run, exactly the proofs of a key are accepted, and they alone change an identity. */
  lemma ProofsAreAccepted(cfg: Config, run: Run, firstLog: seq<Event>, start: int, n: nat)
    requires IsRun(cfg, run, firstLog, start) && n < |run.actions| && run.actions[n].Authenticate?
    ensures var s, a := run.states[n], run.actions[n];
            Live(s, a.conn) && AnswersAuth(cfg, s, a.conn, a.raw, a.now, run.states[n + 1], run.sent[n])
  {
    assert Happens(cfg, run, n);
    var s, a := run.states[n], run.actions[n];
    if a.raw.Some? {
      ValidAuthProves(cfg, s.clients[a.conn].value.challenge, a.raw.value, a.now);
    }
  }

  lemma StepProves(cfg: Config, s: Server, a: Action, conn: nat, key: string)
    requires var clients := ClientsAfter(cfg, s, a);
             conn < |clients| && clients[conn].Some? && clients[conn].value.authenticatedPubkey == Some(key)
    ensures || (Live(s, conn) && s.clients[conn].value.authenticatedPubkey == Some(key))
            || (&& a.Authenticate? && a.conn == conn && Live(s, conn) && a.raw.Some?
                && ProvesKey(cfg, s.clients[conn].value.challenge, a.raw.value, a.now, key))
  {
    if a.Authenticate? && a.raw.Some? && Live(s, a.conn) {
      ValidAuthProves(cfg, s.clients[a.conn].value.challenge, a.raw.value, a.now);
    }
  }

  lemma {:induction false} AuthorityIsExplained(cfg: Config, run: Run, firstLog: seq<Event>, start: int, n: nat,
                                                conn: nat)
    requires IsRun(cfg, run, firstLog, start) && n <= |run.actions|
    ensures AuthorityExplained(cfg, run, n, conn)
  {
    if n > 0 && Live(run.states[n], conn) && run.states[n].clients[conn].value.authenticatedPubkey.Some? {
      AuthorityIsExplained(cfg, run, firstLog, start, n - 1, conn);
      RunClients(cfg, run, firstLog, start, n - 1);
      var key := run.states[n].clients[conn].value.authenticatedPubkey.value;
      StepProves(cfg, run.states[n - 1], run.actions[n - 1], conn, key);
      if !AuthenticatedAt(cfg, run, n - 1, conn, key) {
        var i :| 0 <= i < n - 1 && AuthenticatedAt(cfg, run, i, conn, key);
      }
    }
  }

  /** Every connection keeps the challenge it was opened with. */
  lemma {:induction false} ChallengesAreTheirOwn(cfg: Config, run: Run, firstLog: seq<Event>, start: int, n: nat,
                                                 conn: nat)
    requires IsRun(cfg, run, firstLog, start) && n <= |run.actions| && Live(run.states[n], conn)
    ensures exists i :: 0 <= i < n && |run.states[i].clients| == conn &&
                        run.actions[i] == Open(run.states[n].clients[conn].value.challenge)
  {
    if n > 0 {
      RunClients(cfg, run, firstLog, start, n - 1);
      if Live(run.states[n - 1], conn) {
        ChallengesAreTheirOwn(cfg, run, firstLog, start, n - 1, conn);
      }
    }
  }

  /** After a step, a subscription was either opened by it or held before and not ended by it. */
  ghost predicate Carried(s: Server, a: Action, conn: nat, sub: Subscription)
  {
    || (Opens(s, a, conn, sub.id) && Parsed(a.filters) == sub.filters)
    || (Live(s, conn) && sub in s.clients[conn].value.subscriptions && !Ends(s, a, conn, sub.id))
  }

  lemma CarriesSubscriptions(cfg: Config, s: Server, a: Action, t: Server, conn: nat)
    requires t.clients == ClientsAfter(cfg, s, a) && Live(t, conn)
    requires Live(s, conn) ==> UniqueIds(s.clients[conn].value.subscriptions)
    ensures UniqueIds(t.clients[conn].value.subscriptions)
    ensures forall sub :: sub in t.clients[conn].value.subscriptions ==> Carried(s, a, conn, sub)
  {
    if Opens(s, a, conn, if a.Request? then a.subscription else "") {
      SetSubscriptionMembers(s.clients[conn].value.subscriptions, a.subscription, Parsed(a.filters));
    } else if a.Unsubscribe? && a.conn == conn {
      DropSubscriptionMembers(s.clients[conn].value.subscriptions, a.subscription);
    }
  }

  lemma {:induction false} SubscriptionsAreExplained(cfg: Config, run: Run, firstLog: seq<Event>, start: int, n: nat,
                                                     conn: nat)
    requires IsRun(cfg, run, firstLog, start) && n <= |run.actions|
    ensures SubscriptionsExplained(run, n, conn)
  {
    if n > 0 && Live(run.states[n], conn) {
      SubscriptionsAreExplained(cfg, run, firstLog, start, n - 1, conn);
      var s, a, t := run.states[n - 1], run.actions[n - 1], run.states[n];
      RunClients(cfg, run, firstLog, start, n - 1);
      CarriesSubscriptions(cfg, s, a, t, conn);
      forall sub | sub in t.clients[conn].value.subscriptions
        ensures SubscriptionExplained(run, n, conn, sub)
      {
        assert Carried(s, a, conn, sub);
        if SubscribedAt(run, n - 1, conn, sub.id, sub.filters) {
          assert StillOpen(run, n - 1, n, conn, sub.id);
        } else {
          var j :| 0 <= j < n - 1 && SubscribedAt(run, j, conn, sub.id, sub.filters) &&
                   StillOpen(run, j, n - 1, conn, sub.id);
          assert StillOpen(run, j, n, conn, sub.id);
        }
      }
    }
  }

  lemma StepKeeps(cfg: Config, s: Server, a: Action, conn: nat, sub: Subscription)
    requires Live(s, conn) && UniqueIds(s.clients[conn].value.subscriptions)
    requires sub in s.clients[conn].value.subscriptions && !Ends(s, a, conn, sub.id)
    ensures var clients := ClientsAfter(cfg, s, a);
            conn < |clients| && clients[conn].Some? && sub in clients[conn].value.subscriptions
  {
    var subs := s.clients[conn].value.subscriptions;
    if a.Request? && a.conn == conn && WellFormed(a.filters) {
      SetSubscriptionMembers(subs, a.subscription, Parsed(a.filters));
    } else if a.Unsubscribe? && a.conn == conn {
      DropSubscriptionMembers(subs, a.subscription);
    }
  }

  lemma StepOpens(cfg: Config, s: Server, a: Action, conn: nat, id: string)
    requires Opens(s, a, conn, id) && UniqueIds(s.clients[conn].value.subscriptions)
    ensures var clients := ClientsAfter(cfg, s, a);
            && conn < |clients| && clients[conn].Some?
            && Subscription(id, Parsed(a.filters)) in clients[conn].value.subscriptions
  {
    SetSubscriptionMembers(s.clients[conn].value.subscriptions, id, Parsed(a.filters));
  }

  /** Conversely, an accepted subscription is held for as long as nothing ends it. */
  lemma {:induction false} SubscriptionsStay(cfg: Config, run: Run, firstLog: seq<Event>, start: int, j: nat, n: nat,
                                             conn: nat, sub: Subscription)
    requires IsRun(cfg, run, firstLog, start) && j < n <= |run.actions|
    requires SubscribedAt(run, j, conn, sub.id, sub.filters) && StillOpen(run, j, n, conn, sub.id)
    ensures Live(run.states[n], conn) && sub in run.states[n].clients[conn].value.subscriptions
  {
    RunClients(cfg, run, firstLog, start, n - 1);
    SubscriptionsAreExplained(cfg, run, firstLog, start, n - 1, conn);
    if j == n - 1 {
      StepOpens(cfg, run.states[j], run.actions[j], conn, sub.id);
    } else {
      SubscriptionsStay(cfg, run, firstLog, start, j, n - 1, conn, sub);
      StepKeeps(cfg, run.states[n - 1], run.actions[n - 1], conn, sub);
    }
  }

  /** Only an AUTH of its own changes the identity of a connection that stays open. */
  lemma IdentitiesStay(cfg: Config, run: Run, firstLog: seq<Event>, start: int, n: nat, conn: nat)
    requires IsRun(cfg, run, firstLog, start) && n < |run.actions| && Live(run.states[n], conn)
    requires run.actions[n] != Disconnect(conn) && !run.actions[n].Restart?
    requires run.actions[n].Authenticate? ==> run.actions[n].conn != conn
    ensures Live(run.states[n + 1], conn)
    ensures run.states[n + 1].clients[conn].value.authenticatedPubkey ==
            run.states[n].clients[conn].value.authenticatedPubkey
  {
    RunClients(cfg, run, firstLog, start, n);
  }

  // ----- what is sent -----

  ghost predicate IsMatchOf(subs: seq<Subscription>, e: Event, frame: Frame)
  {
    exists sub :: sub in subs && SomeFilterMatches(sub.filters, e) && frame == EventFrame(sub.id, e)
  }

  ghost predicate IsBroadcastTo(clients: seq<Option<Client>>, e: Event, d: Delivery)
  {
    d.conn < |clients| && clients[d.conn].Some? && IsMatchOf(clients[d.conn].value.subscriptions, e, d.frame)
  }

  lemma {:induction false} SubscriptionFramesExact(conn: nat, subs: seq<Subscription>, e: Event, d: Delivery)
    ensures d in SubscriptionFrames(conn, subs, e) <==>
            d.conn == conn && IsMatchOf(subs, e, d.frame)
  {
    if subs != [] {
      var init, last := subs[..|subs| - 1], subs[|subs| - 1];
      SubscriptionFramesExact(conn, init, e, d);
      assert forall sub :: sub in subs <==> sub in init || sub == last;
    }
  }

  lemma LastClientIsTold(clients: seq<Option<Client>>, e: Event, d: Delivery)
    requires clients != []
    ensures IsBroadcastTo(clients, e, d) <==>
            || IsBroadcastTo(clients[..|clients| - 1], e, d)
            || (d.conn == |clients| - 1 && IsBroadcastTo(clients, e, d))
  {
  }

  /** A broadcast reaches exactly the open subscriptions that match, on every connection. */
  lemma {:induction false} BroadcastExact(clients: seq<Option<Client>>, e: Event, d: Delivery)
    ensures d in BroadcastFrames(clients, e) <==> IsBroadcastTo(clients, e, d)
  {
    if clients != [] {
      var last := |clients| - 1;
      BroadcastExact(clients[..last], e, d);
      LastClientIsTold(clients, e, d);
      if clients[last].Some? {
        var subs := clients[last].value.subscriptions;
        SubscriptionFramesExact(last, subs, e, d);
        assert BroadcastFrames(clients, e) == BroadcastFrames(clients[..last], e) + SubscriptionFrames(last, subs, e);
      }
    }
  }

  lemma HandleEventSendsBroadcast(cfg: Config, s: Server, conn: nat, claimedId: string, raw: Option<Event>,
                                  now: int, outcome: (Contents, Status), d: Delivery)
    requires d in HandleEventWith(cfg, s, conn, claimedId, raw, now, outcome).1 && d.frame.EventFrame?
    ensures raw.Some? && d in BroadcastFrames(s.clients, raw.value)
  {
  }

  lemma HandleReqSendsRead(s: Server, conn: nat, subscription: string, filters: seq<Option<Filter>>,
                           read: seq<Event>, d: Delivery)
    requires Live(s, conn)
    requires d in HandleReq(s, conn, subscription, filters, read).1 && d.frame.EventFrame?
    ensures WellFormed(filters) && Accepts(s.clients[conn].value, Parsed(filters))
    ensures d.conn == conn && d.frame.subscription == subscription && d.frame.event in read
  {
  }

  lemma RequestFrameOrigin(cfg: Config, s: Server, a: Action, t: Server, out: seq<Delivery>, d: Delivery)
    requires Step(cfg, s, a, t, out) && d in out && d.frame.EventFrame? && a.Request?
    ensures Opens(s, a, d.conn, d.frame.subscription)
    ensures SomeFilterMatches(Parsed(a.filters), d.frame.event)
  {
    var read :| (WellFormed(a.filters) ==> IsRead(s.store, Parsed(a.filters), cfg.ReadLimit(), a.clock, read)) &&
                (t, out) == HandleReq(s, a.conn, a.subscription, a.filters, read);
    HandleReqSendsRead(s, a.conn, a.subscription, a.filters, read, d);
    ReadMeaning(s.store, Parsed(a.filters), cfg.ReadLimit(), a.clock, read);
  }

  /** A publication is handled with the outcome of its store call, whatever that is. */
  lemma PublishOutcome(cfg: Config, s: Server, a: Action, t: Server, out: seq<Delivery>)
    returns (outcome: (Contents, Status))
    requires a.Publish? && Step(cfg, s, a, t, out)
    ensures (t, out) == HandleEventWith(cfg, s, a.conn, a.claimedId, a.raw, a.now, outcome)
    ensures a.raw.Some? ==> outcome == StoreOne(cfg.verify, s.store, a.raw.value, a.now + cfg.Delay())
  {
    outcome := if a.raw.Some? then StoreOne(cfg.verify, s.store, a.raw.value, a.now + cfg.Delay())
               else (s.store, Invalid);
  }

  lemma PublishFrameOrigin(cfg: Config, s: Server, a: Action, t: Server, out: seq<Delivery>, d: Delivery)
    requires Step(cfg, s, a, t, out) && d in out && d.frame.EventFrame? && a.Publish?
    ensures a.raw.Some? && d in BroadcastFrames(s.clients, a.raw.value)
  {
    var outcome := PublishOutcome(cfg, s, a, t, out);
    HandleEventSendsBroadcast(cfg, s, a.conn, a.claimedId, a.raw, a.now, outcome, d);
  }

  lemma OtherFramesCarryNoEvent(cfg: Config, s: Server, a: Action, t: Server, out: seq<Delivery>, d: Delivery)
    requires Step(cfg, s, a, t, out) && d in out && !(a.Publish? || a.TimerFires? || a.Request?)
    ensures !d.frame.EventFrame?
  {
  }

  /** Where an EVENT frame can come from: a read just requested, or a broadcast to an open subscription. */
  lemma RunFrameOrigin(cfg: Config, run: Run, firstLog: seq<Event>, start: int, n: nat, d: Delivery)
    requires IsRun(cfg, run, firstLog, start) && n < |run.actions|
    requires d in run.sent[n] && d.frame.EventFrame?
    ensures || (&& Opens(run.states[n], run.actions[n], d.conn, d.frame.subscription)
                && SomeFilterMatches(Parsed(run.actions[n].filters), d.frame.event))
            || IsBroadcastTo(run.states[n].clients, d.frame.event, d)
  {
    assert Happens(cfg, run, n);
    var s, a, t, out := run.states[n], run.actions[n], run.states[n + 1], run.sent[n];
    if a.Request? {
      RequestFrameOrigin(cfg, s, a, t, out, d);
    } else if a.Publish? {
      PublishFrameOrigin(cfg, s, a, t, out, d);
      BroadcastExact(s.clients, a.raw.value, d);
    } else if a.TimerFires? {
      BroadcastExact(s.clients, s.timers[a.index].event, d);
    } else {
      OtherFramesCarryNoEvent(cfg, s, a, t, out, d);
    }
  }

  /** The subscription an EVENT frame goes out on: accepted at some step and in force ever since. */
  lemma GiftWrapSubscription(cfg: Config, run: Run, firstLog: seq<Event>, start: int, n: nat, d: Delivery)
    returns (j: nat, filters: seq<Filter>)
    requires IsRun(cfg, run, firstLog, start) && n < |run.actions|
    requires d in run.sent[n] && d.frame.EventFrame?
    ensures j <= n && SubscribedAt(run, j, d.conn, d.frame.subscription, filters)
    ensures StillOpen(run, j, n, d.conn, d.frame.subscription)
    ensures SomeFilterMatches(filters, d.frame.event)
  {
    var s, a, conn, id := run.states[n], run.actions[n], d.conn, d.frame.subscription;
    RunFrameOrigin(cfg, run, firstLog, start, n, d);
    if Opens(s, a, conn, id) && SomeFilterMatches(Parsed(a.filters), d.frame.event) {
      j, filters := n, Parsed(a.filters);
    } else {
      SubscriptionsAreExplained(cfg, run, firstLog, start, n, conn);
      var sub :| sub in s.clients[conn].value.subscriptions && SomeFilterMatches(sub.filters, d.frame.event) &&
                 d.frame == EventFrame(sub.id, d.frame.event);
      assert SubscriptionExplained(run, n, conn, sub);
      j :| 0 <= j < n && SubscribedAt(run, j, conn, sub.id, sub.filters) && StillOpen(run, j, n, conn, sub.id);
      filters := sub.filters;
    }
  }

  /**
    The relay's safety promise. Whatever the fault mode and however the connections interleave,
    every EVENT frame that carries a gift wrap goes out on a subscription that is still in force,
    that was accepted while its connection held the identity of the recipient, an identity proved by
    a valid AUTH against that connection's own challenge, and the gift wrap names that recipient.
    It holds even when the connection has re-authenticated as somebody else since.
   */
  lemma GiftWrapsReachOnlyTheirRecipients(cfg: Config, run: Run, firstLog: seq<Event>, start: int, n: nat, d: Delivery)
    requires IsRun(cfg, run, firstLog, start) && n < |run.actions|
    requires d in run.sent[n] && d.frame.EventFrame? && d.frame.event.kind == 1_059
    ensures exists j, i, filters, recipient ::
              && 0 <= i < j <= n
              && SubscribedAt(run, j, d.conn, d.frame.subscription, filters)
              && StillOpen(run, j, n, d.conn, d.frame.subscription)
              && AuthenticatedAt(cfg, run, i, d.conn, recipient)
              && run.states[j].clients[d.conn].value.authenticatedPubkey == Some(recipient)
              && exists tag :: tag in d.frame.event.tags && ["p", recipient] <= tag
  {
    var conn, e := d.conn, d.frame.event;
    var j, filters := GiftWrapSubscription(cfg, run, firstLog, start, n, d);
    var k :| 0 <= k < |filters| && Matches(e, filters[k]);
    PlanGuardsGiftWraps(filters, e, k);
    var recipient := PlanFor(filters).recipient;
    AuthorityIsExplained(cfg, run, firstLog, start, j, conn);
    var i :| 0 <= i < j && AuthenticatedAt(cfg, run, i, conn, recipient);
  }
}
