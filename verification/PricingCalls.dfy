/** How every call of the pricing cache ends, and what each step of a refresh does, over all runs. */
module PricingCalls {
  import opened Wrappers
  import opened PricingCache
  import opened PricingRaces

  /** The snapshot is under our key, issued by the first reading and unexpired at the second. */
  ghost predicate IsGood(cfg: Config, held: Option<Snapshot>, t0: int, t1: int)
  {
    held.Some? && held.value.keyId == cfg.keyId && held.value.issuedAt <= t0 && t1 < held.value.expiresAt
  }

  // ----- the pause after a failure -----

  /** The newest refresh failed less than 5000 ms before this time. */
  ghost predicate IsPause(s: Cache, now: int)
  {
    s.runs != [] && s.runs[|s.runs| - 1].phase.Failed? && now < s.runs[|s.runs| - 1].phase.at + 5_000
  }

  /** The pause variable names the end of the pause after a failed newest refresh, and otherwise is in the past. */
  ghost predicate PauseIsKnown(s: Cache)
  {
    && s.now >= 0
    && if s.runs == [] then s.nextAttempt == 0
       else
         var newest := s.runs[|s.runs| - 1];
         match newest.phase
         case Failed(at) => s.nextAttempt == at + 5_000
         case Done => s.nextAttempt == 0
         case AwaitWrite => s.nextAttempt == 0
         case _ => s.nextAttempt <= newest.started
  }

  lemma PausesAre(cfg: Config, s: Cache, now: int)
    requires Paced(s, now) && PauseIsKnown(s) && now >= s.now
    ensures now < s.nextAttempt <==> IsPause(s, now)
  {
    if s.runs != [] {
      assert Timed(s.runs[|s.runs| - 1], now);
    }
  }

  lemma PacedLater(s: Cache, now: int, later: int)
    requires Paced(s, now) && now <= later
    ensures Paced(s, later)
  {
    forall r | 0 <= r < |s.runs| ensures Timed(s.runs[r], later) {
      assert Timed(s.runs[r], now);
    }
  }

  lemma ServeKnowsPause(cfg: Config, s: Cache, call: nat, at: Readings)
    requires call < |s.calls| && InOrder(at) && PauseIsKnown(s)
    ensures PauseIsKnown(Serve(cfg, s, call, at))
  {
  }

  lemma ResumeKnowsPause(cfg: Config, s: Cache, call: nat, at: Readings)
    requires InOrder(at) && PauseIsKnown(s) && call < |s.calls|
    requires s.calls[call].phase.AwaitStale? || s.calls[call].phase.AwaitCold?
    requires s.calls[call].phase.run < |s.runs|
    ensures PauseIsKnown(Resume(cfg, s, call, at))
  {
  }

  /** Only the newest refresh can be in progress, so a step of any other is the clearing of a settled one. */
  lemma RefreshKnowsPause(cfg: Config, s: Cache, a: Action, at: Readings)
    requires SingleFlight(s) && Enabled(s, a, at) && PauseIsKnown(s)
    requires !a.CallBegins? && !a.StoreAnswers? && !a.CallResumes?
    ensures PauseIsKnown(Act(cfg, s, a, at))
  {
    assert !a.PendingCleared? ==> a.run == |s.runs| - 1;
  }

  lemma BeginKnowsPause(cfg: Config, s: Cache, input: Input, at: Readings)
    requires InOrder(at) && PauseIsKnown(s)
    ensures PauseIsKnown(Begin(cfg, s, input, at))
  {
    ServeKnowsPause(cfg, s.(calls := s.calls + [Call(input, AwaitStore)]), |s.calls|, at);
  }

  lemma StoreReadKnowsPause(cfg: Config, s: Cache, call: nat, entry: Option<Entry>, at: Readings)
    requires call < |s.calls| && InOrder(at) && PauseIsKnown(s)
    ensures PauseIsKnown(StoreRead(cfg, s, call, entry, at))
  {
    ServeKnowsPause(cfg, if Adopts(cfg, entry, at) then s.(snapshot := Some(entry.value.snapshot)) else s, call, at);
  }

  lemma LaterKnowsPause(s: Cache, now: int)
    requires PauseIsKnown(s) && now >= 0
    ensures PauseIsKnown(s.(now := now))
  {
  }

  lemma NextKnowsPause(cfg: Config, s: Cache, a: Action, at: Readings)
    requires Inv(cfg, s, s.now) && Enabled(s, a, at) && PauseIsKnown(s)
    ensures PauseIsKnown(Next(cfg, s, a, at))
  {
    match a {
      case CallBegins(input) => BeginKnowsPause(cfg, s, input, at);
      case StoreAnswers(call, entry) => StoreReadKnowsPause(cfg, s, call, entry, at);
      case CallResumes(call) => ResumeKnowsPause(cfg, s, call, at);
      case _ => RefreshKnowsPause(cfg, s, a, at);
    }
    LaterKnowsPause(Act(cfg, s, a, at), at[READS - 1]);
  }

  lemma {:induction false} RunKnowsPause(cfg: Config, run: Run, n: nat)
    requires IsRun(cfg, run) && n <= |run.actions|
    ensures PauseIsKnown(run.states[n])
  {
    if n > 0 {
      RunKnowsPause(cfg, run, n - 1);
      RunInv(cfg, run, n - 1);
      assert Happens(cfg, run, n - 1);
      NextKnowsPause(cfg, run.states[n - 1], run.actions[n - 1], run.clocks[n - 1]);
    }
  }

  // ----- calls -----

  /** Call c is now in this phase, and every other call is as it was. */
  ghost predicate OnlyCall(s: Cache, t: Cache, c: nat, input: Input, phase: CallPhase)
  {
    && c < |t.calls| && |t.calls| == (if c < |s.calls| then |s.calls| else c + 1)
    && t.calls[c] == Call(input, phase) && forall k :: 0 <= k < |s.calls| && k != c ==> t.calls[k] == s.calls[k]
  }

  /** No refresh begins. */
  ghost predicate NoneBegins(s: Cache, t: Cache)
  {
    t.runs == s.runs && t.pending == s.pending && t.nextAttempt == s.nextAttempt
  }

  /** Refresh r is in progress: the pending one, or else a new one that captures what is held. */
  ghost predicate IsRefreshing(s: Cache, t: Cache, held: Option<Snapshot>, input: Input, now: int, r: nat)
  {
    && t.pending == Some(r) && t.nextAttempt == s.nextAttempt
    && if s.pending.Some? then s.pending == Some(r) && t.runs == s.runs
       else
         && r == |s.runs|
         && t.runs == s.runs + [Refresh(input, now, held, if input.hasAdmission then AwaitAdmission else AwaitQuote)]
  }

  /** A call with nothing good to return: it throws in a pause with no refresh pending, and waits otherwise. */
  ghost predicate FallsBack(s: Cache, t: Cache, held: Option<Snapshot>, c: nat, input: Input, now: int)
  {
    if s.pending.None? && IsPause(s, now) then NoneBegins(s, t) && OnlyCall(s, t, c, input, Threw)
    else exists r :: IsRefreshing(s, t, held, input, now, r) && OnlyCall(s, t, c, input, AwaitCold(r))
  }

  /** What is held wants a refresh: its rates are 240000 ms old, and no failure is too recent. */
  ghost predicate WantsRefresh(s: Cache, held: Snapshot, now: int, later: int)
  {
    now - held.fetchedAt >= 240_000 && !IsPause(s, later)
  }

  /**
    How a call proceeds with what is held. Good rates that are recent, or in a pause, are returned at
    once, and no refresh begins. Good rates that want a refresh get one: a call that cannot leave it to
    the background waits for it, and another returns the rates at once. Without good rates it falls back.
   */
  ghost predicate Proceeds(cfg: Config, s: Cache, t: Cache, held: Option<Snapshot>, c: nat, input: Input, at: Readings)
    requires |at| == READS
  {
    if !IsGood(cfg, held, at[4], at[5]) then FallsBack(s, t, held, c, input, at[10])
    else if !WantsRefresh(s, held.value, at[6], at[7]) then
      if IsGood(cfg, held, at[8], at[9]) then NoneBegins(s, t) && OnlyCall(s, t, c, input, Returned(held.value, at[9]))
      else FallsBack(s, t, held, c, input, at[10])
    else
      exists r :: IsRefreshing(s, t, held, input, at[7], r) &&
        OnlyCall(s, t, c, input,
                 if !input.hasWaitUntil then AwaitStale(r)
                 else if IsGood(cfg, held, at[8], at[9]) then Returned(held.value, at[9]) else AwaitCold(r))
  }

  lemma ColdFallsBack(cfg: Config, s: Cache, c: nat, at: Readings)
    requires InOrder(at) && Paced(s, at[0]) && PauseIsKnown(s) && s.now <= at[0] && c < |s.calls|
    ensures FallsBack(s, Cold(s, c, at), s.snapshot, c, s.calls[c].input, at[10])
  {
    PacedLater(s, at[0], at[10]);
    PausesAre(cfg, s, at[10]);
    if !(s.pending.None? && IsPause(s, at[10])) {
      var r := StartRefresh(s, s.calls[c].input, at[10]).1;
      assert IsRefreshing(s, Cold(s, c, at), s.snapshot, s.calls[c].input, at[10], r);
    }
  }

  lemma ServeProceeds(cfg: Config, s: Cache, c: nat, at: Readings)
    requires InOrder(at) && Paced(s, at[0]) && PauseIsKnown(s) && s.now <= at[0] && c < |s.calls|
    ensures Proceeds(cfg, s, Serve(cfg, s, c, at), s.snapshot, c, s.calls[c].input, at)
  {
    var t, input := Serve(cfg, s, c, at), s.calls[c].input;
    ColdFallsBack(cfg, s, c, at);
    PacedLater(s, at[0], at[7]);
    PausesAre(cfg, s, at[7]);
    if IsGood(cfg, s.snapshot, at[4], at[5]) && WantsRefresh(s, s.snapshot.value, at[6], at[7]) {
      var r := StartRefresh(s, input, at[7]).1;
      assert IsRefreshing(s, t, s.snapshot, input, at[7], r);
    }
  }

  /** A store entry to be adopted: signed under our key, an attestation, of supported currencies, good now. */
  ghost predicate IsWorthy(cfg: Config, entry: Option<Entry>, t0: int, t1: int)
  {
    && entry.Some? && entry.value.genuine
    && var s := entry.value.snapshot;
       && s.keyId == cfg.keyId && s.fetchedAt <= s.issuedAt <= t0 && t0 <= t1 < s.expiresAt <= s.fetchedAt + 300_000
       && forall currency :: currency in s.rates ==> currency in cfg.currencies
  }

  lemma WorthyIsAdopted(cfg: Config, entry: Option<Entry>, at: Readings)
    requires InOrder(at)
    ensures Adopts(cfg, entry, at) <==> IsWorthy(cfg, entry, at[0], at[1])
  {
  }

  /** The two states differ in the waiting call and in what is held alone. */
  ghost predicate SameRefreshes(s: Cache, u: Cache, c: nat)
  {
    && u.runs == s.runs && u.pending == s.pending && u.nextAttempt == s.nextAttempt
    && |u.calls| == (if c < |s.calls| then |s.calls| else c + 1) && c < |u.calls|
    && forall k :: 0 <= k < |s.calls| && k != c ==> u.calls[k] == s.calls[k]
  }

  lemma ProceedsFrom(cfg: Config, s: Cache, u: Cache, t: Cache, held: Option<Snapshot>, c: nat, input: Input,
                     at: Readings)
    requires |at| == READS && SameRefreshes(s, u, c) && Proceeds(cfg, u, t, held, c, input, at)
    ensures Proceeds(cfg, s, t, held, c, input, at)
  {
    forall phase ensures OnlyCall(u, t, c, input, phase) ==> OnlyCall(s, t, c, input, phase) {
    }
    forall now, r ensures IsRefreshing(u, t, held, input, now, r) ==> IsRefreshing(s, t, held, input, now, r) {
    }
  }

  lemma LaterTime(cfg: Config, s: Cache, t: Cache, now: int, held: Option<Snapshot>, c: nat, input: Input, at: Readings)
    requires |at| == READS && Proceeds(cfg, s, t, held, c, input, at)
    ensures Proceeds(cfg, s, t.(now := now), held, c, input, at)
  {
    var later := t.(now := now);
    forall phase ensures OnlyCall(s, t, c, input, phase) ==> OnlyCall(s, later, c, input, phase) {
    }
    forall at, r ensures IsRefreshing(s, t, held, input, at, r) ==> IsRefreshing(s, later, held, input, at, r) {
    }
  }

  lemma BeginProceeds(cfg: Config, s: Cache, input: Input, at: Readings)
    requires InOrder(at) && Paced(s, at[0]) && PauseIsKnown(s) && s.now <= at[0]
    ensures var waiting := s.(calls := s.calls + [Call(input, AwaitStore)]);
            Proceeds(cfg, s, Serve(cfg, waiting, |s.calls|, at), s.snapshot, |s.calls|, input, at)
  {
    var waiting := s.(calls := s.calls + [Call(input, AwaitStore)]);
    ServeProceeds(cfg, waiting, |s.calls|, at);
    ProceedsFrom(cfg, s, waiting, Serve(cfg, waiting, |s.calls|, at), s.snapshot, |s.calls|, input, at);
  }

  /** In every run a call asks the store exactly when nothing good is held or pending, and proceeds otherwise. */
  lemma CallsProceed(cfg: Config, run: Run, n: nat)
    requires IsRun(cfg, run) && n < |run.actions| && run.actions[n].CallBegins?
    ensures var s, input, t, at := run.states[n], run.actions[n].input, run.states[n + 1], run.clocks[n];
            && |at| == READS && t.snapshot == s.snapshot
            && if !IsGood(cfg, s.snapshot, at[2], at[3]) && input.hasStore && s.pending.None?
               then NoneBegins(s, t) && OnlyCall(s, t, |s.calls|, input, AwaitStore)
               else Proceeds(cfg, s, t, s.snapshot, |s.calls|, input, at)
  {
    assert Happens(cfg, run, n);
    RunInv(cfg, run, n);
    RunKnowsPause(cfg, run, n);
    var s, input, at := run.states[n], run.actions[n].input, run.clocks[n];
    PacedLater(s, s.now, at[0]);
    SnapshotAfter(cfg, s, run.actions[n], at);
    if IsGood(cfg, s.snapshot, at[2], at[3]) || !input.hasStore || s.pending.Some? {
      BeginProceeds(cfg, s, input, at);
      LaterTime(cfg, s, Begin(cfg, s, input, at), at[READS - 1], s.snapshot, |s.calls|, input, at);
    }
  }

  lemma StoreReadProceeds(cfg: Config, s: Cache, c: nat, entry: Option<Entry>, at: Readings)
    requires InOrder(at) && Paced(s, at[0]) && PauseIsKnown(s) && s.now <= at[0] && c < |s.calls|
    ensures var held := if IsWorthy(cfg, entry, at[0], at[1]) then Some(entry.value.snapshot) else s.snapshot;
            Proceeds(cfg, s, StoreRead(cfg, s, c, entry, at), held, c, s.calls[c].input, at)
  {
    WorthyIsAdopted(cfg, entry, at);
    var u := if Adopts(cfg, entry, at) then s.(snapshot := Some(entry.value.snapshot)) else s;
    ServeProceeds(cfg, u, c, at);
    ProceedsFrom(cfg, s, u, Serve(cfg, u, c, at), u.snapshot, c, s.calls[c].input, at);
  }

  /** In every run a store's answer is adopted exactly when it is worthy; the call proceeds with what is held then. */
  lemma StoreAnswersProceed(cfg: Config, run: Run, n: nat)
    requires IsRun(cfg, run) && n < |run.actions| && run.actions[n].StoreAnswers?
    ensures var s, a, t, at := run.states[n], run.actions[n], run.states[n + 1], run.clocks[n];
            && |at| == READS && a.call < |s.calls| && s.calls[a.call].phase.AwaitStore?
            && t.snapshot == (if IsWorthy(cfg, a.entry, at[0], at[1]) then Some(a.entry.value.snapshot) else s.snapshot)
            && Proceeds(cfg, s, t, t.snapshot, a.call, s.calls[a.call].input, at)
  {
    assert Happens(cfg, run, n);
    RunInv(cfg, run, n);
    RunKnowsPause(cfg, run, n);
    var s, a, at := run.states[n], run.actions[n], run.clocks[n];
    PacedLater(s, s.now, at[0]);
    SnapshotAfter(cfg, s, a, at);
    WorthyIsAdopted(cfg, a.entry, at);
    StoreReadProceeds(cfg, s, a.call, a.entry, at);
    LaterTime(cfg, s, StoreRead(cfg, s, a.call, a.entry, at), at[READS - 1], run.states[n + 1].snapshot, a.call,
              s.calls[a.call].input, at);
  }

  /**
    In every run a call that waited for a refresh ends. A cold one returns what is held if the refresh
    did not fail and that is good, and throws otherwise; a stale one returns what is held if that is
    good, whatever became of the refresh, and falls back otherwise.
   */
  lemma WaitsEnd(cfg: Config, run: Run, n: nat)
    requires IsRun(cfg, run) && n < |run.actions| && run.actions[n].CallResumes?
    ensures var s, c, t, at := run.states[n], run.actions[n].call, run.states[n + 1], run.clocks[n];
            && |at| == READS && c < |s.calls| && t.snapshot == s.snapshot
            && var call, good := s.calls[c], IsGood(cfg, s.snapshot, at[8], at[9]);
               if call.phase.AwaitCold? then
                 && call.phase.run < |s.runs| && NoneBegins(s, t)
                 && OnlyCall(s, t, c, call.input,
                             if !s.runs[call.phase.run].phase.Failed? && good then Returned(s.snapshot.value, at[9])
                             else Threw)
               else
                 && call.phase.AwaitStale?
                 && if good then NoneBegins(s, t) && OnlyCall(s, t, c, call.input, Returned(s.snapshot.value, at[9]))
                    else FallsBack(s, t, s.snapshot, c, call.input, at[10])
  {
    assert Happens(cfg, run, n);
    RunInv(cfg, run, n);
    RunKnowsPause(cfg, run, n);
    var s, c, at := run.states[n], run.actions[n].call, run.clocks[n];
    PacedLater(s, s.now, at[0]);
    if s.calls[c].phase.AwaitStale? && !IsGood(cfg, s.snapshot, at[8], at[9]) {
      ColdFallsBack(cfg, s, c, at);
      FallsBackLater(s, Cold(s, c, at), at[READS - 1], s.snapshot, c, s.calls[c].input, at[10]);
    }
  }

  lemma FallsBackLater(s: Cache, t: Cache, later: int, held: Option<Snapshot>, c: nat, input: Input, now: int)
    requires FallsBack(s, t, held, c, input, now)
    ensures FallsBack(s, t.(now := later), held, c, input, now)
  {
    if !(s.pending.None? && IsPause(s, now)) {
      var r :| IsRefreshing(s, t, held, input, now, r) && OnlyCall(s, t, c, input, AwaitCold(r));
      assert IsRefreshing(s, t.(now := later), held, input, now, r);
    }
  }

  // ----- refreshes -----

  /** Refresh r is now in this phase; no other refresh and no call is touched. */
  ghost predicate OnlyRefresh(s: Cache, t: Cache, r: nat, phase: Phase)
  {
    && r < |s.runs| && t.runs == s.runs[r := s.runs[r].(phase := phase)] && t.calls == s.calls
  }

  /** The rates of a quote that are kept: those of supported currencies that are positive. */
  ghost predicate AreKept(cfg: Config, rates: map<string, real>, kept: map<string, real>)
  {
    forall currency ::
      && (currency in kept <==> currency in rates && currency in cfg.currencies && rates[currency] > 0.0)
      && (currency in kept ==> kept[currency] == rates[currency])
  }

  /** A good captured snapshot quotes a currency that is missing here. */
  ghost predicate LacksCoverage(cfg: Config, previous: Option<Snapshot>, kept: map<string, real>, t0: int, t1: int)
  {
    IsGood(cfg, previous, t0, t1) && exists currency :: currency in previous.value.rates && currency !in kept
  }

  /** The quote is installed as this snapshot: fresh at three readings, covering enough, and signed at the last. */
  ghost predicate IsInstalled(cfg: Config, r: Refresh, a: Action, at: Readings, snapshot: Snapshot)
    requires |at| == READS
  {
    && a.QuoteAnswers? && a.signable && a.quote.Some? && AreKept(cfg, a.quote.value.rates, snapshot.rates)
    && snapshot.fetchedAt == a.quote.value.fetchedAt && snapshot.fetchedAt <= at[0]
    && at[1] < snapshot.fetchedAt + 300_000 && at[4] < snapshot.fetchedAt + 300_000
    && !LacksCoverage(cfg, r.previous, snapshot.rates, at[2], at[3])
    && snapshot.keyId == cfg.keyId && snapshot.issuedAt == at[4] && snapshot.expiresAt == snapshot.fetchedAt + 300_000
  }

  lemma KeptAreUsable(cfg: Config, rates: map<string, real>, kept: map<string, real>)
    ensures AreKept(cfg, rates, kept) <==> kept == Usable(cfg, rates)
  {
    if AreKept(cfg, rates, kept) {
      forall currency ensures currency in kept <==> currency in Usable(cfg, rates) {
      }
    }
  }

  lemma InstallsExactly(cfg: Config, r: Refresh, a: Action, at: Readings, snapshot: Snapshot)
    requires InOrder(at) && a.QuoteAnswers?
    ensures Installs(cfg, r, a.quote, a.signable, at) == Some(snapshot) <==> IsInstalled(cfg, r, a, at, snapshot)
  {
    if a.quote.Some? {
      KeptAreUsable(cfg, a.quote.value.rates, snapshot.rates);
      var kept := Usable(cfg, a.quote.value.rates);
      assert LosesCoverage(cfg, r.previous, kept, at[2], at[3]) <==>
             LacksCoverage(cfg, r.previous, kept, at[2], at[3]);
    }
  }

  /**
    In every run a quote that may be installed is held from then on and ends the pause, its refresh
    going on to write it to the store if there is one; any other quote, or none, makes the refresh throw.
   */
  lemma QuotesAreInstalled(cfg: Config, run: Run, n: nat, snapshot: Snapshot)
    requires IsRun(cfg, run) && n < |run.actions| && run.actions[n].QuoteAnswers?
    ensures var s, a, t, at := run.states[n], run.actions[n], run.states[n + 1], run.clocks[n];
            && |at| == READS && a.run < |s.runs| && t.pending == s.pending
            && (IsInstalled(cfg, s.runs[a.run], a, at, snapshot) ==>
                  && t.snapshot == Some(snapshot) && !IsPause(t, t.now)
                  && OnlyRefresh(s, t, a.run, if s.runs[a.run].input.hasStore then AwaitWrite else Done))
            && ((forall any :: !IsInstalled(cfg, s.runs[a.run], a, at, any)) ==>
                  t.snapshot == s.snapshot && OnlyRefresh(s, t, a.run, Throwing))
  {
    assert Happens(cfg, run, n);
    RunInv(cfg, run, n);
    var s, a, at := run.states[n], run.actions[n], run.clocks[n];
    InstallsExactly(cfg, s.runs[a.run], a, at, snapshot);
    var installed := Installs(cfg, s.runs[a.run], a.quote, a.signable, at);
    if installed.Some? {
      InstallsExactly(cfg, s.runs[a.run], a, at, installed.value);
    }
  }

  /** In every run the other steps of a refresh move it alone: admission, the write, the failure, and its clearing. */
  lemma RefreshesMove(cfg: Config, run: Run, n: nat)
    requires IsRun(cfg, run) && n < |run.actions|
    ensures var s, a, t, at := run.states[n], run.actions[n], run.states[n + 1], run.clocks[n];
            match a
            case AdmissionAnswers(r, admitted) =>
              t.snapshot == s.snapshot && t.pending == s.pending &&
              OnlyRefresh(s, t, r, if admitted then AwaitQuote else Throwing)
            case WriteEnds(r) => t.snapshot == s.snapshot && t.pending == s.pending && OnlyRefresh(s, t, r, Done)
            case FailureHandled(r) =>
              |at| == READS && t.snapshot == s.snapshot && t.pending == s.pending && OnlyRefresh(s, t, r, Failed(at[0]))
            case PendingCleared(r) =>
              && t.snapshot == s.snapshot && t.runs == s.runs && t.calls == s.calls
              && t.pending == if s.pending == Some(r) then None else s.pending
            case _ => true
  {
    assert Happens(cfg, run, n);
  }

  // ----- what this means for a caller -----

  /** A caller that finds good, recent rates gets them at once, and no refresh begins. */
  lemma RecentRatesAreReturned(cfg: Config, run: Run, n: nat)
    requires IsRun(cfg, run) && n < |run.actions| && run.actions[n].CallBegins? && |run.clocks[n]| == READS
    requires IsGood(cfg, run.states[n].snapshot, run.clocks[n][2], run.clocks[n][9])
    requires run.clocks[n][6] - run.states[n].snapshot.value.fetchedAt < 240_000
    ensures var s, t := run.states[n], run.states[n + 1];
            && NoneBegins(s, t)
            && OnlyCall(s, t, |s.calls|, run.actions[n].input, Returned(s.snapshot.value, run.clocks[n][9]))
  {
    assert Happens(cfg, run, n);
    CallsProceed(cfg, run, n);
  }

  /** A call throws before it has waited only while the newest refresh has failed, for 5000 ms, and none is pending. */
  lemma CallsThrowOnlyInPause(cfg: Config, run: Run, n: nat, c: nat)
    requires IsRun(cfg, run) && n < |run.actions| && c < |run.states[n + 1].calls|
    requires run.states[n + 1].calls[c].phase.Threw?
    requires c >= |run.states[n].calls| || run.states[n].calls[c].phase.AwaitStore?
    ensures |run.clocks[n]| == READS && run.states[n].pending.None? && IsPause(run.states[n], run.clocks[n][10])
    ensures !IsGood(cfg, run.states[n + 1].snapshot, run.clocks[n][4], run.clocks[n][9])
  {
    assert Happens(cfg, run, n);
    var a := run.actions[n];
    if a.CallBegins? {
      CallsProceed(cfg, run, n);
    } else if a.StoreAnswers? {
      StoreAnswersProceed(cfg, run, n);
    } else if a.CallResumes? {
      WaitsEnd(cfg, run, n);
    }
  }

  // ----- whole lives of a first call -----

  const FULL := Input(true, false, true)

  function Quoted(cfg: Config): Snapshot
  {
    Snapshot(cfg.keyId, 40, 30 + MAX_AGE_MS, 30, map[])
  }

  /** A first call asks the store in vain, is admitted, gets its quote, writes it, and resumes. */
  function FirstCall(cfg: Config): Run
  {
    var asking, waiting := Call(FULL, AwaitStore), Call(FULL, AwaitCold(0));
    var served := Call(FULL, Returned(Quoted(cfg), 70));
    var held := Some(Quoted(cfg));
    Run([EMPTY,
         Cache(0, None, None, 0, [], [asking]),
         Cache(10, None, Some(0), 0, [Refresh(FULL, 10, None, AwaitAdmission)], [waiting]),
         Cache(20, None, Some(0), 0, [Refresh(FULL, 10, None, AwaitQuote)], [waiting]),
         Cache(40, held, Some(0), 0, [Refresh(FULL, 10, None, AwaitWrite)], [waiting]),
         Cache(50, held, Some(0), 0, [Refresh(FULL, 10, None, Done)], [waiting]),
         Cache(60, held, None, 0, [Refresh(FULL, 10, None, Done)], [waiting]),
         Cache(70, held, None, 0, [Refresh(FULL, 10, None, Done)], [served])],
        [CallBegins(FULL), StoreAnswers(0, None), AdmissionAnswers(0, true),
         QuoteAnswers(0, Some(Quote(30, map[])), true), WriteEnds(0), PendingCleared(0), CallResumes(0)],
        [Still(0), Still(10), Still(20), Still(40), Still(50), Still(60), Still(70)])
  }

  lemma FirstCallAsks(cfg: Config)
    ensures Happens(cfg, FirstCall(cfg), 0) && Happens(cfg, FirstCall(cfg), 1) && Happens(cfg, FirstCall(cfg), 2)
  {
  }

  lemma FirstCallInstalls(cfg: Config)
    ensures Happens(cfg, FirstCall(cfg), 3)
  {
    assert Usable(cfg, map[]) == map[];
  }

  lemma FirstCallResumes(cfg: Config)
    ensures Happens(cfg, FirstCall(cfg), 4) && Happens(cfg, FirstCall(cfg), 5) && Happens(cfg, FirstCall(cfg), 6)
  {
  }

  /** A first call can go through every await and return the very quote it caused to be fetched. */
  lemma FirstCallIsServed(cfg: Config)
    ensures var run := FirstCall(cfg);
            && IsRun(cfg, run) && run.actions[0] == CallBegins(FULL)
            && run.states[7].calls == [Call(FULL, Returned(Quoted(cfg), 70))] && run.states[7].pending.None?
  {
    FirstCallAsks(cfg);
    FirstCallInstalls(cfg);
    FirstCallResumes(cfg);
  }

  /** The same call when the provider fails: the refresh throws, pauses, and so does the call. */
  function FailedCall(cfg: Config): Run
  {
    var waiting := Call(PLAIN_CALL, AwaitCold(0));
    Run([EMPTY,
         Cache(0, None, Some(0), 0, [Refresh(PLAIN_CALL, 0, None, AwaitQuote)], [waiting]),
         Cache(10, None, Some(0), 0, [Refresh(PLAIN_CALL, 0, None, Throwing)], [waiting]),
         Cache(20, None, Some(0), 5_020, [Refresh(PLAIN_CALL, 0, None, Failed(20))], [waiting]),
         Cache(30, None, None, 5_020, [Refresh(PLAIN_CALL, 0, None, Failed(20))], [waiting]),
         Cache(40, None, None, 5_020, [Refresh(PLAIN_CALL, 0, None, Failed(20))], [Call(PLAIN_CALL, Threw)])],
        [CallBegins(PLAIN_CALL), QuoteAnswers(0, None, true), FailureHandled(0), PendingCleared(0), CallResumes(0)],
        [Still(0), Still(10), Still(20), Still(30), Still(40)])
  }

  const PLAIN_CALL := Input(false, false, false)

  lemma FailedCallThrows(cfg: Config)
    ensures var run := FailedCall(cfg);
            IsRun(cfg, run) && run.states[5].calls == [Call(PLAIN_CALL, Threw)] && IsPause(run.states[5], 5_019)
  {
    FailedCallStarts(cfg);
    FailedCallEnds(cfg);
  }

  lemma FailedCallStarts(cfg: Config)
    ensures Happens(cfg, FailedCall(cfg), 0) && Happens(cfg, FailedCall(cfg), 1) && Happens(cfg, FailedCall(cfg), 2)
  {
  }

  lemma FailedCallEnds(cfg: Config)
    ensures Happens(cfg, FailedCall(cfg), 3) && Happens(cfg, FailedCall(cfg), 4)
  {
  }
}
