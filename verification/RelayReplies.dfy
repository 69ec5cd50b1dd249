/** How a publication is answered: when it is accepted, and what is kept, announced and acknowledged then. */
module RelayReplies {
  import opened Wrappers
  import opened RelayEvents
  import opened RelayStore
  import opened RelayQuery
  import opened RelaySession
  import opened RelayPromises
  import RelayLog

  /** The event is new to the store and of a kind that is kept. */
  ghost predicate IsNews(s: Server, e: Event)
  {
    e.id !in s.store.events && !(20_000 <= e.kind <= 29_999)
  }

  /** The publication is accepted: writes are not rejected, it is welcome, and nothing held outranks it. */
  ghost predicate IsAccepted(cfg: Config, s: Server, raw: Option<Event>)
  {
    && cfg.faultMode != RejectWrites && IsWelcome(cfg.verify, raw)
    && (IsNews(s, raw.value) ==> forall id :: id in s.store.events ==> !Outranks(s.store.events[id], raw.value))
  }

  lemma ReplayIsConsistent(verify: Verifier, log: seq<Event>, now: int)
    requires SoundVerifier(verify)
    ensures Consistent(verify, Replay(verify, log, now))
  {
    StoreAllInvariant(verify, LoggedArrivals(verify, log, now));
  }

  lemma StoreCallKeeps(verify: Verifier, s: Contents, t: Contents, e: Event, at: int)
    requires SoundVerifier(verify) && Consistent(verify, s) && t == StoreOne(verify, s, e, at).0
    ensures Consistent(verify, t)
  {
    StoreOneConsistent(verify, s, e, at);
  }

  lemma PublishKeeps(cfg: Config, run: Run, firstLog: seq<Event>, start: int, n: nat)
    requires SoundVerifier(cfg.verify) && IsRun(cfg, run, firstLog, start)
    requires n < |run.actions| && run.actions[n].Publish? && Consistent(cfg.verify, run.states[n].store)
    ensures Consistent(cfg.verify, run.states[n + 1].store)
  {
    var s, a, t := run.states[n].store, run.actions[n], run.states[n + 1].store;
    RelayLog.RunPublishes(cfg, run, firstLog, start, n);
    if RelayLog.Reaches(cfg, a.raw) {
      StoreCallKeeps(cfg.verify, s, t, a.raw.value, a.now + cfg.Delay());
    }
  }

  lemma OthersKeep(cfg: Config, run: Run, firstLog: seq<Event>, start: int, n: nat)
    requires SoundVerifier(cfg.verify) && IsRun(cfg, run, firstLog, start)
    requires n < |run.actions| && !run.actions[n].Publish? && Consistent(cfg.verify, run.states[n].store)
    ensures Consistent(cfg.verify, run.states[n + 1].store)
  {
    RelayLog.RunOtherwise(cfg, run, firstLog, start, n);
    if run.actions[n].Restart? {
      ReplayIsConsistent(cfg.verify, run.states[n].log, run.actions[n].now);
    }
  }

  lemma {:induction false} StoreStaysConsistent(cfg: Config, run: Run, firstLog: seq<Event>, start: int, n: nat)
    requires SoundVerifier(cfg.verify) && IsRun(cfg, run, firstLog, start) && n <= |run.actions|
    ensures Consistent(cfg.verify, run.states[n].store)
  {
    if n == 0 {
      ReplayIsConsistent(cfg.verify, firstLog, start);
    } else {
      StoreStaysConsistent(cfg, run, firstLog, start, n - 1);
      if run.actions[n - 1].Publish? {
        PublishKeeps(cfg, run, firstLog, start, n - 1);
      } else {
        OthersKeep(cfg, run, firstLog, start, n - 1);
      }
    }
  }

  /** In a consistent store the holder of an event's slot is the only held event that competes with it. */
  lemma HolderCompetes(verify: Verifier, s: Contents, e: Event, id: string)
    requires SoundVerifier(verify) && Consistent(verify, s) && verify(e) && id in s.events
    ensures Compete(s.events[id], e) <==>
              ReplacementKey(e).Some? && Holder(s, ReplacementKey(e).value) == Some(s.events[id])
  {
    CompeteByKey(s.events[id], e);
    if ReplacementKey(e).Some? {
      HeldSlot(verify, s, ReplacementKey(e).value);
    }
  }

  /** The store turns away exactly the news that a held event outranks. */
  lemma StoreAccepts(verify: Verifier, s: Contents, e: Event, at: int)
    requires SoundVerifier(verify) && Consistent(verify, s) && verify(e)
    requires e.id !in s.events && !(20_000 <= e.kind <= 29_999)
    ensures StoreOne(verify, s, e, at).1 == Stored <==>
              forall id :: id in s.events ==> !Outranks(s.events[id], e)
    ensures StoreOne(verify, s, e, at).1 in {Stored, Superseded}
  {
    forall id | id in s.events
      ensures Outranks(s.events[id], e) <==>
                && ReplacementKey(e).Some? && Holder(s, ReplacementKey(e).value) == Some(s.events[id])
                && !IsNewerReplacement(e, s.events[id])
    {
      var x := s.events[id];
      HolderCompetes(verify, s, e, id);
      LessPrecedes(x.id, e.id);
      NewerIsStrictOrder(x, e, x);
    }
    if ReplacementKey(e).Some? {
      HeldSlot(verify, s, ReplacementKey(e).value);
    }
  }

  /** What the store makes of a welcome event. */
  lemma StoreOutcome(cfg: Config, s: Server, raw: Option<Event>, at: int)
    requires SoundVerifier(cfg.verify) && Consistent(cfg.verify, s.store)
    requires IsWelcome(cfg.verify, raw) && cfg.faultMode != RejectWrites
    ensures var (t, status) := StoreOne(cfg.verify, s.store, raw.value, at);
            && (status.Accepted() <==> IsAccepted(cfg, s, raw))
            && (status == Stored <==> IsNews(s, raw.value) && IsAccepted(cfg, s, raw))
            && (status == Duplicate <==> raw.value.id in s.store.events) && (status != Invalid)
            && (if status == Stored then
                  && raw.value.id in t.events && t.events[raw.value.id] == raw.value
                  && raw.value.id in t.visibleAt && t.visibleAt[raw.value.id] == at
                else t == s.store)
  {
    if IsNews(s, raw.value) {
      StoreAccepts(cfg.verify, s.store, raw.value, at);
    }
  }

  /** A broadcast: the event goes out on each open subscription one of whose filters it meets, and nowhere else. */
  ghost predicate IsToldTo(clients: seq<Option<Client>>, e: Event, d: Delivery)
  {
    && d.conn < |clients| && clients[d.conn].Some?
    && exists sub, f :: sub in clients[d.conn].value.subscriptions && f in sub.filters && Meets(e, f) &&
                        d.frame == EventFrame(sub.id, e)
  }

  lemma BroadcastTells(clients: seq<Option<Client>>, e: Event, d: Delivery)
    ensures d in BroadcastFrames(clients, e) <==> IsToldTo(clients, e, d)
  {
    BroadcastExact(clients, e, d);
    forall f ensures Matches(e, f) <==> Meets(e, f) {
      MatchesMeets(e, f);
    }
    if IsBroadcastTo(clients, e, d) {
      var sub :| sub in clients[d.conn].value.subscriptions && SomeFilterMatches(sub.filters, e) &&
                 d.frame == EventFrame(sub.id, e);
      var i :| 0 <= i < |sub.filters| && Matches(e, sub.filters[i]);
      assert sub.filters[i] in sub.filters;
    }
    if sub, f :| d.conn < |clients| && clients[d.conn].Some? && sub in clients[d.conn].value.subscriptions &&
                 f in sub.filters && Meets(e, f) && d.frame == EventFrame(sub.id, e) {
      var i :| 0 <= i < |sub.filters| && sub.filters[i] == f;
      assert SomeFilterMatches(sub.filters, e);
    }
  }

  /** Announced at once to the matching subscriptions, or when the reading delay is over; AUTH events never. */
  ghost predicate IsAnnounced(cfg: Config, s: Server, t: Server, out: seq<Delivery>, e: Event, now: int)
  {
    if e.kind == 22_242 then
      t.timers == s.timers && forall d :: d in out ==> !d.frame.EventFrame?
    else if cfg.faultMode == DelayReads && cfg.readDelayMs > 0 then
      t.timers == s.timers + [Timer(e, now + cfg.readDelayMs)] && forall d :: d in out ==> !d.frame.EventFrame?
    else
      t.timers == s.timers && forall d :: d in out && d.frame.EventFrame? <==> IsToldTo(s.clients, e, d)
  }

  /** One positive acknowledgement, unless the fault mode drops it, and nothing else but events. */
  ghost predicate IsAcknowledged(cfg: Config, s: Server, out: seq<Delivery>, conn: nat, e: Event)
  {
    if cfg.faultMode == DropAcks then forall d :: d in out ==> d.frame.EventFrame?
    else
      && out != [] && (forall i :: 0 <= i < |out| - 1 ==> out[i].frame.EventFrame?)
      && out[|out| - 1] ==
         Delivery(conn, OkFrame(e.id, true, if e.id in s.store.events then "duplicate: accepted" else "saved"))
  }

  /** News is kept under its id, visible after the delay, and logged by a persistent relay; the rest changes nothing. */
  ghost predicate IsKept(cfg: Config, s: Server, t: Server, e: Event, now: int)
  {
    && t.clients == s.clients
    && (if IsNews(s, e) then
          && e.id in t.store.events && t.store.events[e.id] == e && e.id in t.store.visibleAt
          && t.store.visibleAt[e.id] == (if cfg.faultMode == DelayReads then now + cfg.readDelayMs else now)
          && t.log == if cfg.persistence then s.log + [e] else s.log
        else t.store == s.store && t.log == s.log)
  }

  lemma NoReplyInBroadcast(clients: seq<Option<Client>>, e: Event)
    ensures forall d :: d in BroadcastFrames(clients, e) ==> d.frame.EventFrame?
  {
    forall d | d in BroadcastFrames(clients, e) ensures d.frame.EventFrame? {
      BroadcastExact(clients, e, d);
    }
  }

  lemma AnnouncedAfterStore(cfg: Config, s: Server, conn: nat, e: Event, status: Status, now: int)
    requires status.Accepted()
    ensures var (t, out) := AfterStore(cfg, s, conn, e, status, now);
            IsAnnounced(cfg, s, t, out, e, now)
  {
    forall d ensures d in BroadcastFrames(s.clients, e) <==> IsToldTo(s.clients, e, d) {
      BroadcastTells(s.clients, e, d);
    }
  }

  lemma AcknowledgedAfterStore(cfg: Config, s: Server, stored: Server, conn: nat, e: Event, status: Status, now: int)
    requires status.Accepted() && (status == Duplicate <==> e.id in s.store.events)
    ensures IsAcknowledged(cfg, s, AfterStore(cfg, stored, conn, e, status, now).1, conn, e)
  {
    NoReplyInBroadcast(stored.clients, e);
  }

  /** A refusal changes nothing and sends one negative answer with its reason. */
  ghost predicate IsTurnedAway(cfg: Config, s: Server, conn: nat, claimedId: string, raw: Option<Event>, t: Server,
                               out: seq<Delivery>)
  {
    && t == s
    && if !IsWelcome(cfg.verify, raw) then
         out == [Delivery(conn, OkFrame(claimedId, false, "invalid: event id or signature verification failed"))]
       else if cfg.faultMode == RejectWrites then
         out == [Delivery(conn, OkFrame(raw.value.id, false, "blocked: injected write rejection"))]
       else out == [Delivery(conn, OkFrame(raw.value.id, false, "duplicate: newer replaceable event already stored"))]
  }

  /**
    In every run a publication is accepted exactly when writes are not rejected, it is welcome and
    nothing held outranks it. Then it is kept, announced and acknowledged; otherwise it is turned
    away and leaves no trace.
   */
  lemma PublicationsAreDecided(cfg: Config, run: Run, firstLog: seq<Event>, start: int, n: nat)
    requires SoundVerifier(cfg.verify) && IsRun(cfg, run, firstLog, start)
    requires n < |run.actions| && run.actions[n].Publish?
    ensures var s, a, t, out := run.states[n], run.actions[n], run.states[n + 1], run.sent[n];
            if IsAccepted(cfg, s, a.raw) then
              && IsKept(cfg, s, t, a.raw.value, a.now)
              && IsAnnounced(cfg, s, t, out, a.raw.value, a.now) && IsAcknowledged(cfg, s, out, a.conn, a.raw.value)
            else IsTurnedAway(cfg, s, a.conn, a.claimedId, a.raw, t, out)
  {
    assert Happens(cfg, run, n);
    StoreStaysConsistent(cfg, run, firstLog, start, n);
    var s, a := run.states[n], run.actions[n];
    if IsAccepted(cfg, s, a.raw) {
      AcceptedIsAnswered(cfg, s, a.conn, a.claimedId, a.raw, a.now);
    } else {
      RefusedIsTurnedAway(cfg, s, a.conn, a.claimedId, a.raw, a.now);
    }
  }

  lemma AcceptedIsAnswered(cfg: Config, s: Server, conn: nat, claimedId: string, raw: Option<Event>, now: int)
    requires SoundVerifier(cfg.verify) && Consistent(cfg.verify, s.store) && IsAccepted(cfg, s, raw)
    ensures var (t, out) := HandleEvent(cfg, s, conn, claimedId, raw, now);
            && IsKept(cfg, s, t, raw.value, now)
            && IsAnnounced(cfg, s, t, out, raw.value, now) && IsAcknowledged(cfg, s, out, conn, raw.value)
  {
    var outcome := StoreOne(cfg.verify, s.store, raw.value, now + cfg.Delay());
    var stored := s.(store := outcome.0);
    StoreOutcome(cfg, s, raw, now + cfg.Delay());
    assert HandleEvent(cfg, s, conn, claimedId, raw, now) == AfterStore(cfg, stored, conn, raw.value, outcome.1, now);
    AnnouncedAfterStore(cfg, stored, conn, raw.value, outcome.1, now);
    AcknowledgedAfterStore(cfg, s, stored, conn, raw.value, outcome.1, now);
    KeptAfterStore(cfg, s, conn, raw.value, outcome, now);
  }

  lemma RefusedIsTurnedAway(cfg: Config, s: Server, conn: nat, claimedId: string, raw: Option<Event>, now: int)
    requires SoundVerifier(cfg.verify) && Consistent(cfg.verify, s.store) && !IsAccepted(cfg, s, raw)
    ensures var (t, out) := HandleEvent(cfg, s, conn, claimedId, raw, now);
            IsTurnedAway(cfg, s, conn, claimedId, raw, t, out)
  {
    if IsWelcome(cfg.verify, raw) && cfg.faultMode != RejectWrites {
      StoreOutcome(cfg, s, raw, now + cfg.Delay());
    }
  }

  lemma KeptAfterStore(cfg: Config, s: Server, conn: nat, e: Event, outcome: (Contents, Status), now: int)
    requires outcome.1.Accepted() && (outcome.1 == Stored <==> IsNews(s, e))
    requires if outcome.1 == Stored then
               && e.id in outcome.0.events && outcome.0.events[e.id] == e
               && e.id in outcome.0.visibleAt && outcome.0.visibleAt[e.id] == now + cfg.Delay()
             else outcome.0 == s.store
    ensures IsKept(cfg, s, AfterStore(cfg, s.(store := outcome.0), conn, e, outcome.1, now).0, e, now)
  {
  }

  /** In every run a delayed announcement, once due, goes out to the matching subscriptions and changes nothing else. */
  lemma TimersAnnounce(cfg: Config, run: Run, firstLog: seq<Event>, start: int, n: nat)
    requires IsRun(cfg, run, firstLog, start) && n < |run.actions| && run.actions[n].TimerFires?
    ensures var s, a, t := run.states[n], run.actions[n], run.states[n + 1];
            && a.index < |s.timers| && s.timers[a.index].dueAt <= a.now
            && t.clients == s.clients && t.store == s.store && t.log == s.log
            && forall d :: d in run.sent[n] <==> IsToldTo(s.clients, s.timers[a.index].event, d)
  {
    assert Happens(cfg, run, n);
    var s, a := run.states[n], run.actions[n];
    forall d ensures d in run.sent[n] <==> IsToldTo(s.clients, s.timers[a.index].event, d) {
      BroadcastTells(s.clients, s.timers[a.index].event, d);
    }
  }
}
