/** The append-only event log refines the live store, across writes, rejections and restarts. */
module RelayLog {
  import opened Wrappers
  import opened RelayEvents
  import opened RelayStore
  import opened RelayQuery
  import opened RelaySession

  /** The stored events and the replacement index agree exactly; only visibility times may differ. */
  ghost predicate SameData(a: Contents, b: Contents)
  {
    a.events == b.events && a.slots == b.slots
  }

  /** What a store decides never depends on visibility times. */
  lemma DecisionsIgnoreVisibility(verify: Verifier, a: Contents, b: Contents, e: Event, atA: int, atB: int)
    requires SameData(a, b)
    ensures StoreOne(verify, a, e, atA).1 == StoreOne(verify, b, e, atB).1
    ensures SameData(StoreOne(verify, a, e, atA).0, StoreOne(verify, b, e, atB).0)
  {
    if ReplacementKey(e).Some? {
      assert Holder(a, ReplacementKey(e).value) == Holder(b, ReplacementKey(e).value);
    }
  }

  lemma ReplayAppend(verify: Verifier, log: seq<Event>, e: Event, now: int)
    requires NormalizeEvent(verify, Some(e)).Some?
    ensures Replay(verify, log + [e], now) == StoreOne(verify, Replay(verify, log, now), e, now).0
  {
    var arrivals := LoggedArrivals(verify, log, now);
    assert (log + [e])[..|log|] == log;
    assert LoggedArrivals(verify, log + [e], now) == arrivals + [Arrival(e, now)];
    assert (arrivals + [Arrival(e, now)])[..|arrivals|] == arrivals;
  }

  lemma {:induction false} ReplayTimeIsImmaterial(verify: Verifier, log: seq<Event>, t: int, u: int)
    ensures SameData(Replay(verify, log, t), Replay(verify, log, u))
  {
    if log != [] {
      var init, e := log[..|log| - 1], log[|log| - 1];
      ReplayTimeIsImmaterial(verify, init, t, u);
      if NormalizeEvent(verify, Some(e)).Some? {
        assert log == init + [e];
        ReplayAppend(verify, init, e, t);
        ReplayAppend(verify, init, e, u);
        DecisionsIgnoreVisibility(verify, Replay(verify, init, t), Replay(verify, init, u), e, t, u);
      } else {
        assert LoggedArrivals(verify, log, t) == LoggedArrivals(verify, init, t);
        assert LoggedArrivals(verify, log, u) == LoggedArrivals(verify, init, u);
      }
    }
  }

  /** The step stored `e`: in the maps and, when the relay persists, at the end of the log. */
  ghost predicate Stores(cfg: Config, s: Server, t: Server, e: Event, visibleAt: int)
  {
    && NormalizeEvent(cfg.verify, Some(e)).Some?
    && StoreOne(cfg.verify, s.store, e, visibleAt) == (t.store, Stored)
    && t.log == if cfg.persistence then s.log + [e] else s.log
  }

  ghost predicate StoresSomething(cfg: Config, s: Server, t: Server)
  {
    exists e, visibleAt :: Stores(cfg, s, t, e, visibleAt)
  }

  lemma NotStoredUnchanged(verify: Verifier, s: Contents, e: Event, visibleAt: int)
    requires StoreOne(verify, s, e, visibleAt).1 != Stored
    ensures StoreOne(verify, s, e, visibleAt).0 == s
  {
  }

  /** Whether this publication reaches the store at all. */
  predicate Reaches(cfg: Config, raw: Option<Event>)
  {
    cfg.faultMode != RejectWrites && NormalizeEvent(cfg.verify, raw).Some?
  }

  lemma AfterStoreData(cfg: Config, s: Server, conn: nat, e: Event, status: Status, now: int)
    ensures AfterStore(cfg, s, conn, e, status, now).0.store == s.store
    ensures AfterStore(cfg, s, conn, e, status, now).0.log ==
            if cfg.persistence && status == Stored then s.log + [e] else s.log
  {
  }

  lemma HandleEventData(cfg: Config, s: Server, conn: nat, claimedId: string, raw: Option<Event>, now: int,
                        outcome: (Contents, Status))
    ensures var t := HandleEventWith(cfg, s, conn, claimedId, raw, now, outcome).0;
            if Reaches(cfg, raw) then
              && t.store == outcome.0
              && t.log == if cfg.persistence && outcome.1 == Stored then s.log + [raw.value] else s.log
            else t.store == s.store && t.log == s.log
  {
    if Reaches(cfg, raw) {
      AfterStoreData(cfg, s.(store := outcome.0), conn, raw.value, outcome.1, now);
    }
  }

  lemma RunPublishes(cfg: Config, run: Run, firstLog: seq<Event>, start: int, n: nat)
    requires IsRun(cfg, run, firstLog, start) && n < |run.actions| && run.actions[n].Publish?
    ensures var s, a, t := run.states[n], run.actions[n], run.states[n + 1];
            if Reaches(cfg, a.raw) then
              var outcome := StoreOne(cfg.verify, s.store, a.raw.value, a.now + cfg.Delay());
              && t.store == outcome.0
              && t.log == if cfg.persistence && outcome.1 == Stored then s.log + [a.raw.value] else s.log
            else t.store == s.store && t.log == s.log
  {
    assert Happens(cfg, run, n);
    var s, a := run.states[n], run.actions[n];
    var outcome := PublishOutcome(cfg, s, a, run.states[n + 1], run.sent[n]);
    HandleEventData(cfg, s, a.conn, a.claimedId, a.raw, a.now, outcome);
  }

  lemma PublishData(cfg: Config, s: Server, t: Server, raw: Option<Event>, at: int)
    requires Reaches(cfg, raw)
    requires var outcome := StoreOne(cfg.verify, s.store, raw.value, at);
             && t.store == outcome.0
             && t.log == if cfg.persistence && outcome.1 == Stored then s.log + [raw.value] else s.log
    ensures (t.store == s.store && t.log == s.log) || StoresSomething(cfg, s, t)
  {
    if StoreOne(cfg.verify, s.store, raw.value, at).1 == Stored {
      assert Stores(cfg, s, t, raw.value, at);
    } else {
      NotStoredUnchanged(cfg.verify, s.store, raw.value, at);
    }
  }

  lemma RunOtherwise(cfg: Config, run: Run, firstLog: seq<Event>, start: int, n: nat)
    requires IsRun(cfg, run, firstLog, start) && n < |run.actions| && !run.actions[n].Publish?
    ensures run.states[n + 1].log == run.states[n].log
    ensures run.states[n + 1].store ==
            if run.actions[n].Restart? then Replay(cfg.verify, run.states[n].log, run.actions[n].now)
            else run.states[n].store
  {
    assert Happens(cfg, run, n);
  }

  /** All that can happen to store and log in one step. */
  ghost predicate LogMoves(cfg: Config, s: Server, a: Action, t: Server)
  {
    || (t.store == s.store && t.log == s.log)
    || (a.Publish? && StoresSomething(cfg, s, t))
    || (a.Restart? && t.log == s.log && t.store == Replay(cfg.verify, s.log, a.now))
  }

  lemma RunLogs(cfg: Config, run: Run, firstLog: seq<Event>, start: int, n: nat)
    requires IsRun(cfg, run, firstLog, start) && n < |run.actions|
    ensures LogMoves(cfg, run.states[n], run.actions[n], run.states[n + 1])
  {
    var a := run.actions[n];
    if a.Publish? {
      RunPublishes(cfg, run, firstLog, start, n);
      if Reaches(cfg, a.raw) {
        PublishData(cfg, run.states[n], run.states[n + 1], a.raw, a.now + cfg.Delay());
      }
    } else {
      RunOtherwise(cfg, run, firstLog, start, n);
    }
  }

  /**
    At every moment of every run, with any number of restarts in it and whatever the log held at
    first, replaying the log from nothing rebuilds exactly the live events and replacement index.
   */
  lemma {:induction false} LogRebuildsStore(cfg: Config, run: Run, firstLog: seq<Event>, start: int, n: nat, now: int)
    requires IsRun(cfg, run, firstLog, start) && cfg.persistence && n <= |run.actions|
    ensures SameData(Replay(cfg.verify, run.states[n].log, now), run.states[n].store)
  {
    if n == 0 {
      ReplayTimeIsImmaterial(cfg.verify, firstLog, now, start);
    } else {
      var s, a, t := run.states[n - 1], run.actions[n - 1], run.states[n];
      LogRebuildsStore(cfg, run, firstLog, start, n - 1, now);
      RunLogs(cfg, run, firstLog, start, n - 1);
      if t.store == s.store && t.log == s.log {
      } else if a.Publish? {
        var e, visibleAt :| Stores(cfg, s, t, e, visibleAt);
        ReplayAppend(cfg.verify, s.log, e, now);
        DecisionsIgnoreVisibility(cfg.verify, Replay(cfg.verify, s.log, now), s.store, e, now, visibleAt);
      } else {
        ReplayTimeIsImmaterial(cfg.verify, s.log, now, a.now);
      }
    }
  }

  lemma {:induction false} LoggedIsArrived(verify: Verifier, log: seq<Event>, now: int, i: nat)
    requires i < |log| && NormalizeEvent(verify, Some(log[i])).Some?
    ensures log[i] in Arrived(LoggedArrivals(verify, log, now))
  {
    var init := log[..|log| - 1];
    var arrivals := LoggedArrivals(verify, log, now);
    if i < |log| - 1 {
      LoggedIsArrived(verify, init, now, i);
      var a :| a in LoggedArrivals(verify, init, now) && a.event == log[i];
      assert a in arrivals;
    } else {
      assert Arrival(log[i], now) in arrivals;
    }
  }

  /** Nothing the log already has, under any valid signature, is ever stored again. */
  lemma LoggedIsNotStoredAgain(verify: Verifier, log: seq<Event>, now: int, i: nat, e: Event)
    requires SoundVerifier(verify)
    requires i < |log| && NormalizeEvent(verify, Some(log[i])).Some? && log[i].id == e.id
    ensures StoreOne(verify, Replay(verify, log, now), e, now).1 != Stored
  {
    if verify(e) {
      LoggedIsArrived(verify, log, now, i);
      ResendingChangesNothing(verify, LoggedArrivals(verify, log, now), log[i], now);
      assert log[i].Unsigned() == e.Unsigned();
      assert ReplacementKey(log[i]) == ReplacementKey(e);
    }
  }

  /** Entries from `from` on are valid, and none repeats the id of a valid entry before it. */
  ghost predicate NewEntriesAreFresh(verify: Verifier, log: seq<Event>, from: nat)
  {
    && (forall j :: from <= j < |log| ==> NormalizeEvent(verify, Some(log[j])).Some?)
    && (forall i, j :: 0 <= i < j < |log| && from <= j && NormalizeEvent(verify, Some(log[i])).Some? ==>
          log[i].id != log[j].id)
  }

  lemma StoredEntryIsFresh(verify: Verifier, log: seq<Event>, e: Event, now: int, from: nat)
    requires SoundVerifier(verify) && from <= |log|
    requires NewEntriesAreFresh(verify, log, from)
    requires NormalizeEvent(verify, Some(e)).Some?
    requires StoreOne(verify, Replay(verify, log, now), e, now).1 == Stored
    ensures NewEntriesAreFresh(verify, log + [e], from)
  {
    forall i | 0 <= i < |log| && NormalizeEvent(verify, Some(log[i])).Some?
      ensures log[i].id != e.id
    {
      if log[i].id == e.id {
        LoggedIsNotStoredAgain(verify, log, now, i, e);
      }
    }
  }

  lemma StoringAppendsFresh(cfg: Config, s: Server, t: Server, e: Event, visibleAt: int, base: nat)
    requires SoundVerifier(cfg.verify) && cfg.persistence && Stores(cfg, s, t, e, visibleAt) && base <= |s.log|
    requires SameData(Replay(cfg.verify, s.log, visibleAt), s.store) && NewEntriesAreFresh(cfg.verify, s.log, base)
    ensures s.log <= t.log && NewEntriesAreFresh(cfg.verify, t.log, base)
  {
    DecisionsIgnoreVisibility(cfg.verify, Replay(cfg.verify, s.log, visibleAt), s.store, e, visibleAt, visibleAt);
    StoredEntryIsFresh(cfg.verify, s.log, e, visibleAt, base);
  }

  /** The log only grows, and never by an event it already holds. */
  lemma {:induction false} LogNeverRepeats(cfg: Config, run: Run, firstLog: seq<Event>, start: int, n: nat)
    requires SoundVerifier(cfg.verify)
    requires IsRun(cfg, run, firstLog, start) && n <= |run.actions|
    ensures firstLog <= run.states[n].log
    ensures NewEntriesAreFresh(cfg.verify, run.states[n].log, |firstLog|)
  {
    if n > 0 {
      var s, t := run.states[n - 1], run.states[n];
      LogNeverRepeats(cfg, run, firstLog, start, n - 1);
      RunLogs(cfg, run, firstLog, start, n - 1);
      if t.log != s.log {
        var e, visibleAt :| Stores(cfg, s, t, e, visibleAt);
        LogRebuildsStore(cfg, run, firstLog, start, n - 1, visibleAt);
        StoringAppendsFresh(cfg, s, t, e, visibleAt, |firstLog|);
      }
    }
  }

  /** From an empty log, no id is ever written twice. */
  lemma FreshLogHasNoRepeats(cfg: Config, run: Run, start: int, n: nat)
    requires SoundVerifier(cfg.verify)
    requires IsRun(cfg, run, [], start) && n <= |run.actions|
    ensures NoRepeatedIds(run.states[n].log)
  {
    LogNeverRepeats(cfg, run, [], start, n);
  }

  /** The valid event an action hands to the store, if any; none gets there while writes are rejected. */
  function Delivered(cfg: Config, a: Action): set<Event>
  {
    if a.Publish? && Reaches(cfg, a.raw) then {a.raw.value} else {}
  }

  /** Valid events the relay has been sent, at start-up or since. */
  function Received(cfg: Config, firstLog: seq<Event>, actions: seq<Action>): set<Event>
  {
    if actions == [] then Arrived(LoggedArrivals(cfg.verify, firstLog, 0))
    else
      Received(cfg, firstLog, actions[..|actions| - 1]) + Delivered(cfg, actions[|actions| - 1])
  }

  lemma {:induction false} LoggedEventsIgnoreTime(verify: Verifier, log: seq<Event>, t: int, u: int)
    ensures Arrived(LoggedArrivals(verify, log, t)) == Arrived(LoggedArrivals(verify, log, u))
  {
    if log != [] {
      LoggedEventsIgnoreTime(verify, log[..|log| - 1], t, u);
      var last := log[|log| - 1];
      forall now ensures Arrived(LoggedArrivals(verify, log, now)) ==
                         Arrived(LoggedArrivals(verify, log[..|log| - 1], now)) +
                         (if NormalizeEvent(verify, Some(last)).Some? then {last} else {}) {
        var init := LoggedArrivals(verify, log[..|log| - 1], now);
        assert forall a :: a in init + [Arrival(last, now)] <==> a in init || a == Arrival(last, now);
        assert Arrival(last, now) in init + [Arrival(last, now)];
      }
    }
  }

  lemma SameDataCovers(verify: Verifier, a: Contents, b: Contents, arrived: set<Event>)
    requires SameData(a, b) && Covers(verify, a, arrived)
    ensures Covers(verify, b, arrived)
  {
    forall x | x in arrived ensures AccountedFor(verify, b, x) {
      assert AccountedFor(verify, a, x);
    }
  }

  /** A step's effect on the store: one store call for a delivered event, a replay, or nothing. */
  ghost predicate StoreMoves(cfg: Config, s: Contents, a: Action, t: Contents)
  {
    if a.Publish? && Reaches(cfg, a.raw)
    then t == StoreOne(cfg.verify, s, a.raw.value, a.now + cfg.Delay()).0
    else a.Restart? || t == s
  }

  lemma RunMovesStore(cfg: Config, run: Run, firstLog: seq<Event>, start: int, n: nat)
    requires IsRun(cfg, run, firstLog, start) && n < |run.actions|
    ensures StoreMoves(cfg, run.states[n].store, run.actions[n], run.states[n + 1].store)
  {
    if run.actions[n].Publish? {
      RunPublishes(cfg, run, firstLog, start, n);
    } else {
      RunOtherwise(cfg, run, firstLog, start, n);
    }
  }

  lemma StoredCovers(verify: Verifier, s: Contents, t: Contents, e: Event, at: int, arrived: set<Event>)
    requires SoundVerifier(verify) && Consistent(verify, s) && Covers(verify, s, arrived)
    requires t == StoreOne(verify, s, e, at).0
    ensures Consistent(verify, t) && Covers(verify, t, arrived + {e})
  {
    StoreOneConsistent(verify, s, e, at);
    StoreOneCovers(verify, s, e, at, arrived);
  }

  lemma MoveCovers(cfg: Config, s: Contents, a: Action, t: Contents, arrived: set<Event>)
    requires SoundVerifier(cfg.verify) && StoreMoves(cfg, s, a, t)
    requires a.Restart? ==> SameData(s, t) && Consistent(cfg.verify, t)
    requires Consistent(cfg.verify, s) && Covers(cfg.verify, s, arrived)
    ensures Consistent(cfg.verify, t) && Covers(cfg.verify, t, arrived + Delivered(cfg, a))
  {
    if a.Publish? && Reaches(cfg, a.raw) {
      StoredCovers(cfg.verify, s, t, a.raw.value, a.now + cfg.Delay(), arrived);
    } else {
      assert arrived + Delivered(cfg, a) == arrived;
      if a.Restart? {
        SameDataCovers(cfg.verify, s, t, arrived);
      }
    }
  }

  lemma RestartRebuilds(cfg: Config, run: Run, firstLog: seq<Event>, start: int, n: nat)
    requires SoundVerifier(cfg.verify)
    requires IsRun(cfg, run, firstLog, start) && cfg.persistence && n < |run.actions| && run.actions[n].Restart?
    ensures SameData(run.states[n].store, run.states[n + 1].store)
    ensures Consistent(cfg.verify, run.states[n + 1].store)
  {
    RunOtherwise(cfg, run, firstLog, start, n);
    LogRebuildsStore(cfg, run, firstLog, start, n, run.actions[n].now);
    StoreAllInvariant(cfg.verify, LoggedArrivals(cfg.verify, run.states[n].log, run.actions[n].now));
  }

  lemma {:induction false} ServerCovers(cfg: Config, run: Run, firstLog: seq<Event>, start: int, n: nat)
    requires SoundVerifier(cfg.verify)
    requires IsRun(cfg, run, firstLog, start) && cfg.persistence && n <= |run.actions|
    ensures Consistent(cfg.verify, run.states[n].store)
    ensures Covers(cfg.verify, run.states[n].store, Received(cfg, firstLog, run.actions[..n]))
  {
    if n == 0 {
      StoreAllInvariant(cfg.verify, LoggedArrivals(cfg.verify, firstLog, start));
      LoggedEventsIgnoreTime(cfg.verify, firstLog, start, 0);
    } else {
      var s, a, t := run.states[n - 1], run.actions[n - 1], run.states[n];
      ServerCovers(cfg, run, firstLog, start, n - 1);
      assert run.actions[..n][..n - 1] == run.actions[..n - 1];
      if a.Restart? {
        RestartRebuilds(cfg, run, firstLog, start, n - 1);
      }
      RunMovesStore(cfg, run, firstLog, start, n - 1);
      MoveCovers(cfg, s.store, a, t.store, Received(cfg, firstLog, run.actions[..n - 1]));
    }
  }

  /**
    Convergence of the whole server: at every moment of every run, restarts included, it holds
    exactly the survivors of the valid events it has received, whatever the order they came in.
   */
  lemma ServerHoldsExactlyTheSurvivors(cfg: Config, run: Run, firstLog: seq<Event>, start: int, n: nat)
    requires SoundVerifier(cfg.verify)
    requires IsRun(cfg, run, firstLog, start) && cfg.persistence && n <= |run.actions|
    ensures HoldsExactlyTheSurvivors(cfg.verify, run.states[n].store, Received(cfg, firstLog, run.actions[..n]))
  {
    var s, arrived := run.states[n].store, Received(cfg, firstLog, run.actions[..n]);
    ServerCovers(cfg, run, firstLog, start, n);
    CoveredIsExact(cfg.verify, s, arrived);
  }
}
