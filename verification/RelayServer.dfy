/** The relay server's handlers, updating its state in place, proved against the session model. */
module RelayServer {
  import opened Wrappers
  import opened RelayEvents
  import opened RelayStore
  import opened RelayQuery
  import opened RelaySession
  import opened EventStore
  import RelayLog

  /** Decides how a list of filters may be read, looking for one common recipient. */
  method ClassifyProtectedRead(filters: seq<Filter>) returns (plan: ReadPlan)
    ensures plan == PlanFor(filters)
  {
    var touching := 0;
    for i := 0 to |filters|
      invariant 0 <= touching <= i
      invariant touching == 0 <==> forall k :: 0 <= k < i ==> !TouchesGiftWraps(filters[k])
      invariant touching == i <==> forall k :: 0 <= k < i ==> TouchesGiftWraps(filters[k])
    {
      if TouchesGiftWraps(filters[i]) { touching := touching + 1; }
    }
    if touching == 0 { return PublicRead; }
    if touching != |filters| {
      assert exists k :: 0 <= k < |filters| && !TouchesGiftWraps(filters[k]);
      assert forall k :: 0 <= k < |filters| && !TouchesGiftWraps(filters[k]) ==>
          !AddressedTo(filters[k], FirstRecipient(filters));
      return InvalidRead;
    }
    var recipient: Option<string> := None;
    for i := 0 to |filters|
      invariant recipient.None? <==> i == 0
      invariant recipient.Some? ==> recipient.value == FirstRecipient(filters)
      invariant forall k :: 0 <= k < i ==> AddressedTo(filters[k], FirstRecipient(filters))
    {
      var f := filters[i];
      if f.kinds.None? || |f.kinds.value| != 1 || f.kinds.value[0] != GIFT_WRAP_KIND ||
         "p" !in f.tags || |f.tags["p"]| != 1 || !IsHexIdentifier(f.tags["p"][0])
      {
        assert !AddressedTo(f, FirstRecipient(filters));
        return InvalidRead;
      }
      if recipient.Some? && recipient.value != f.tags["p"][0] {
        assert !AddressedTo(f, FirstRecipient(filters));
        return InvalidRead;
      }
      assert f.kinds.value == [GIFT_WRAP_KIND] && f.tags["p"] == [f.tags["p"][0]];
      recipient := Some(f.tags["p"][0]);
    }
    return ProtectedRead(recipient.value);
  }

  /** Looks for a tag of this name with this value. */
  method SomePair(e: Event, name: string, value: string) returns (found: bool)
    ensures found <==> exists tag :: tag in e.tags && [name, value] <= tag
  {
    for i := 0 to |e.tags|
      invariant forall k :: 0 <= k < i ==> !([name, value] <= e.tags[k])
    {
      if |e.tags[i]| > 1 && e.tags[i][0] == name && e.tags[i][1] == value {
        assert e.tags[i] in e.tags;
        return true;
      }
    }
    return false;
  }

  /** The handler of the session model is the one whose outcome is that of its store call. */
  lemma OutcomeDecides(cfg: Config, s: Server, conn: nat, claimedId: string, raw: Option<Event>, now: int,
                       outcome: (Contents, Status))
    requires NormalizeEvent(cfg.verify, raw).Some? && cfg.faultMode != RejectWrites ==>
               outcome == StoreOne(cfg.verify, s.store, raw.value, now + cfg.Delay())
    ensures HandleEventWith(cfg, s, conn, claimedId, raw, now, outcome) ==
            RelaySession.HandleEvent(cfg, s, conn, claimedId, raw, now)
  {
  }

  /** One line of the log: stored if it normalises, skipped otherwise. */
  lemma ReplayLine(verify: Verifier, log: seq<Event>, i: nat, now: int)
    requires i < |log|
    ensures Replay(verify, log[..i + 1], now) ==
            if NormalizeEvent(verify, Some(log[i])).Some?
            then StoreOne(verify, Replay(verify, log[..i], now), log[i], now).0
            else Replay(verify, log[..i], now)
  {
    assert log[..i + 1][..i] == log[..i] && log[..i + 1][i] == log[i];
    if NormalizeEvent(verify, Some(log[i])).Some? {
      assert log[..i + 1] == log[..i] + [log[i]];
      RelayLog.ReplayAppend(verify, log[..i], log[i], now);
    } else {
      assert LoggedArrivals(verify, log[..i + 1], now) == LoggedArrivals(verify, log[..i], now);
    }
  }

  class RelayServer {
    const cfg: Config
    const store: RelayEventStore
    var log: seq<Event>
    var clients: seq<Option<Client>>
    var timers: seq<Timer>
    /** Every frame handed to the network so far. */
    var sent: seq<Delivery>

    ghost predicate Valid()
      reads this, store
    {
      store.verify == cfg.verify && HoldsVerified(cfg.verify, store.Contents())
    }

    function State(): Server
      reads this, store
    {
      Server(store.Contents(), log, clients, timers)
    }

    /** Start-up: an empty store, then, with persistence, one `store` per line of the log file that still normalises. */
    constructor (cfg: Config, file: seq<Event>, now: int)
      ensures Valid() && fresh(store) && this.cfg == cfg
      ensures State() == Started(cfg.verify, if cfg.persistence then file else [], 0, now) && sent == []
    {
      var log := if cfg.persistence then file else [];
      this.cfg := cfg;
      this.log := log;
      store := new RelayEventStore(cfg.verify);
      clients, timers, sent := [], [], [];
      new;
      for i := 0 to |log|
        invariant fresh(store) && store.verify == cfg.verify
        invariant this.log == log && clients == [] && timers == [] && sent == []
        invariant store.Contents() == Replay(cfg.verify, log[..i], now)
        invariant HoldsVerified(cfg.verify, store.Contents())
      {
        ReplayLine(cfg.verify, log, i, now);
        if NormalizeEvent(cfg.verify, Some(log[i])).Some? {
          StoreOneHoldsVerified(cfg.verify, store.Contents(), log[i], now);
          var status := store.Store(log[i], 0, now);
        }
      }
      assert log[..|log|] == log;
    }

    method Send(conn: nat, frame: Frame)
      modifies this`sent
      ensures sent == old(sent) + [Delivery(conn, frame)]
    {
      sent := sent + [Delivery(conn, frame)];
    }

    method SendMatching(conn: nat, subs: seq<Subscription>, event: Event)
      modifies this`sent
      ensures sent == old(sent) + SubscriptionFrames(conn, subs, event)
    {
      for k := 0 to |subs|
        invariant sent == old(sent) + SubscriptionFrames(conn, subs[..k], event)
      {
        assert subs[..k + 1][..k] == subs[..k];
        if SomeFilterMatches(subs[k].filters, event) {
          Send(conn, EventFrame(subs[k].id, event));
        }
      }
      assert subs[..|subs|] == subs;
    }

    method Broadcast(event: Event)
      modifies this`sent
      ensures sent == old(sent) + BroadcastFrames(clients, event)
    {
      for conn := 0 to |clients|
        invariant sent == old(sent) + BroadcastFrames(clients[..conn], event)
      {
        assert clients[..conn + 1][..conn] == clients[..conn];
        if clients[conn].Some? {
          SendMatching(conn, clients[conn].value.subscriptions, event);
        }
      }
      assert clients[..|clients|] == clients;
    }

    method StoreEvent(e: Event, now: int) returns (status: Status)
      requires Valid()
      modifies store
      ensures Valid()
      ensures (store.Contents(), status) == StoreOne(cfg.verify, old(store.Contents()), e, now + cfg.Delay())
    {
      StoreOneHoldsVerified(cfg.verify, store.Contents(), e, now + cfg.Delay());
      status := store.Store(e, cfg.Delay(), now);
    }

    /** Answers an EVENT: the new state and the frames are those of the session model. */
    method HandleEvent(conn: nat, claimedId: string, raw: Option<Event>, now: int)
      requires Valid()
      modifies this`log, this`timers, this`sent, store
      ensures Valid()
      ensures var (state, frames) := RelaySession.HandleEvent(cfg, old(State()), conn, claimedId, raw, now);
              State() == state && sent == old(sent) + frames
    {
      ghost var before := State();
      ghost var outcome := AnswerEvent(conn, claimedId, raw, now);
      OutcomeDecides(cfg, before, conn, claimedId, raw, now, outcome);
    }

    /** The body of the EVENT handler; `outcome` is what its store call, if it makes one, did and reported. */
    method AnswerEvent(conn: nat, claimedId: string, raw: Option<Event>, now: int)
      returns (ghost outcome: (Contents, Status))
      requires Valid()
      modifies this`log, this`timers, this`sent, store
      ensures Valid()
      ensures NormalizeEvent(cfg.verify, raw).Some? && cfg.faultMode != RejectWrites ==>
                outcome == StoreOne(cfg.verify, old(store.Contents()), raw.value, now + cfg.Delay())
      ensures var (state, frames) := HandleEventWith(cfg, old(State()), conn, claimedId, raw, now, outcome);
              State() == state && sent == old(sent) + frames
    {
      outcome := (store.Contents(), Invalid);
      var event := NormalizeEvent(cfg.verify, raw);
      if event.None? {
        Send(conn, OkFrame(claimedId, false, "invalid: event id or signature verification failed"));
        return;
      }
      var e := event.value;
      if cfg.faultMode == RejectWrites {
        Send(conn, OkFrame(e.id, false, "blocked: injected write rejection"));
        return;
      }
      var status := StoreEvent(e, now);
      outcome := (store.Contents(), status);
      AfterStore(conn, e, status, now);
    }

    method AfterStore(conn: nat, e: Event, status: Status, now: int)
      modifies this`log, this`timers, this`sent
      ensures var (state, frames) := RelaySession.AfterStore(cfg, old(State()), conn, e, status, now);
              State() == state && sent == old(sent) + frames
    {
      if !status.Accepted() {
        Send(conn, OkFrame(e.id, false,
                           if status == Superseded then "duplicate: newer replaceable event already stored"
                           else "invalid: event id or signature verification failed"));
        return;
      }
      if cfg.persistence && status == Stored { log := log + [e]; }
      if e.kind != NIP42_AUTH_KIND {
        if cfg.Delay() > 0 {
          timers := timers + [Timer(e, now + cfg.Delay())];
        } else {
          Broadcast(e);
        }
      }
      if cfg.faultMode != DropAcks {
        Send(conn, OkFrame(e.id, true, if status == Duplicate then "duplicate: accepted" else "saved"));
      }
    }

    method Subscribe(conn: nat, subscription: string, filters: seq<Filter>, matches: seq<Event>)
      requires Live(State(), conn)
      modifies this`clients, this`sent
      ensures var (state, frames) := RelaySession.Subscribe(old(State()), conn, subscription, filters, matches);
              State() == state && sent == old(sent) + frames
    {
      var client := clients[conn].value;
      clients := clients[conn := Some(client.(subscriptions :=
        SetSubscription(client.subscriptions, subscription, filters)))];
      ghost var all, updated := EventFrames(conn, subscription, matches), clients;
      for i := 0 to |matches|
        invariant clients == updated
        invariant sent == old(sent) + all[..i]
      {
        Send(conn, EventFrame(subscription, matches[i]));
      }
      assert all[..|matches|] == all;
      Send(conn, EoseFrame(subscription));
    }

    /** Answers a REQ; the frames are those of the session model for some read the store can give. */
    method HandleReq(conn: nat, subscription: string, filters: seq<Option<Filter>>, clock: Clock)
      returns (ghost read: seq<Event>)
      requires Valid() && Live(State(), conn)
      modifies this`clients, this`sent
      ensures Valid()
      ensures WellFormed(filters) ==> IsRead(store.Contents(), Parsed(filters), cfg.ReadLimit(), clock, read)
      ensures var (state, frames) := RelaySession.HandleReq(old(State()), conn, subscription, filters, read);
              State() == state && sent == old(sent) + frames
    {
      read := [];
      if !WellFormed(filters) {
        Send(conn, ClosedFrame(subscription, "invalid: malformed filter"));
        return;
      }
      var parsed := Parsed(filters);
      var plan := ClassifyProtectedRead(parsed);
      var client := clients[conn].value;
      var matches := store.Query(parsed, cfg.ReadLimit(), clock);
      read := matches;
      if plan == InvalidRead {
        Send(conn, ClosedFrame(subscription, "restricted: protected reads require one authenticated recipient"));
      } else if plan.ProtectedRead? && client.authenticatedPubkey.None? {
        Send(conn, AuthFrame(client.challenge));
        Send(conn, ClosedFrame(subscription, "auth-required: authenticate for protected reads"));
      } else if plan.ProtectedRead? && client.authenticatedPubkey.value != plan.recipient {
        Send(conn, ClosedFrame(subscription, "restricted: authenticated account does not match recipient"));
      } else {
        Subscribe(conn, subscription, parsed, matches);
      }
    }

    method HandleAuth(conn: nat, raw: Option<Event>, now: int)
      requires Valid() && Live(State(), conn)
      modifies this`clients, this`sent
      ensures Valid()
      ensures var (state, frames) := RelaySession.HandleAuth(cfg, old(State()), conn, raw, now);
              State() == state && sent == old(sent) + frames
    {
      var event := NormalizeEvent(cfg.verify, raw);
      if event.None? {
        Send(conn, OkFrame("", false, "invalid: NIP-42 authentication failed"));
        return;
      }
      var e, client := event.value, clients[conn].value;
      var hasChallenge := SomePair(e, "challenge", client.challenge);
      var hasRelay := SomePair(e, "relay", cfg.relayUrl);
      PairIsPrefix(e, "challenge", client.challenge);
      PairIsPrefix(e, "relay", cfg.relayUrl);
      var age := now / 1_000 - e.createdAt;
      var isFresh := (if age < 0 then -age else age) <= NIP42_AUTH_FRESHNESS_SECONDS;
      if !(e.kind == NIP42_AUTH_KIND && e.content == "" && isFresh && hasChallenge && hasRelay) {
        Send(conn, OkFrame(e.id, false, "invalid: NIP-42 authentication failed"));
        return;
      }
      clients := clients[conn := Some(client.(authenticatedPubkey := Some(e.pubkey)))];
      Send(conn, OkFrame(e.id, true, "authenticated"));
    }
  }
}
