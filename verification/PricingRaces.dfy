/**
  What a second-level store changes in the pricing cache: exactly when a step loses unexpired coverage,
  and exactly when the time of the held quote goes back.
 */
module PricingRaces {
  import opened Wrappers
  import opened PricingCache

  /** Histories have a clock for every action and a state around each. */
  ghost predicate IsHistory(run: Run)
  {
    |run.states| == |run.actions| + 1 && |run.clocks| == |run.actions|
  }

  // ----- where suspended frames began -----

  /** Step m begins call c with a store read: nothing valid is held, and no refresh is pending. */
  ghost predicate ReadBegan(cfg: Config, run: Run, m: nat, c: nat)
    requires IsHistory(run)
  {
    && m < |run.actions| && run.actions[m].CallBegins? && run.actions[m].input.hasStore
    && c == |run.states[m].calls| && run.states[m].pending.None? && |run.clocks[m]| == READS
    && !Valid(cfg, run.states[m].snapshot, run.clocks[m][2], run.clocks[m][3])
  }

  /** Step m begins refresh run r. */
  ghost predicate RunBegan(run: Run, m: nat, r: nat)
    requires IsHistory(run)
  {
    m < |run.actions| && |run.states[m].runs| == r < |run.states[m + 1].runs|
  }

  lemma ServeEndsRead(cfg: Config, s: Cache, call: nat, at: Readings, c: nat)
    requires call < |s.calls| && c < |s.calls| && |at| == READS
    ensures |Serve(cfg, s, call, at).calls| == |s.calls|
    ensures Serve(cfg, s, call, at).calls[c].phase.AwaitStore? ==> c != call && s.calls[c].phase.AwaitStore?
  {
  }

  lemma StepReads(cfg: Config, s: Cache, a: Action, at: Readings, c: nat)
    requires Enabled(s, a, at) && c < |Next(cfg, s, a, at).calls| && Next(cfg, s, a, at).calls[c].phase.AwaitStore?
    ensures c < |s.calls| ==> s.calls[c].phase.AwaitStore?
    ensures c >= |s.calls| ==>
              && a.CallBegins? && c == |s.calls| && a.input.hasStore && s.pending.None?
              && !Valid(cfg, s.snapshot, at[2], at[3])
  {
    match a {
      case CallBegins(input) =>
        ServeEndsRead(cfg, s.(calls := s.calls + [Call(input, AwaitStore)]), |s.calls|, at, c);
      case StoreAnswers(call, entry) =>
        var t := if Adopts(cfg, entry, at) then s.(snapshot := Some(entry.value.snapshot)) else s;
        ServeEndsRead(cfg, t, call, at, c);
      case _ =>
    }
  }

  /** A call that waits for the store began its read at an earlier step, with nothing valid held. */
  lemma {:induction false} ReadsBegan(cfg: Config, run: Run, n: nat, c: nat) returns (m: nat)
    requires IsRun(cfg, run) && n <= |run.actions|
    requires c < |run.states[n].calls| && run.states[n].calls[c].phase.AwaitStore?
    ensures m < n && ReadBegan(cfg, run, m, c)
  {
    assert n > 0;
    assert Happens(cfg, run, n - 1);
    StepReads(cfg, run.states[n - 1], run.actions[n - 1], run.clocks[n - 1], c);
    if c < |run.states[n - 1].calls| {
      m := ReadsBegan(cfg, run, n - 1, c);
    } else {
      m := n - 1;
    }
  }

  /** A read that begins starts no refresh. */
  lemma ReadStartsNoRun(cfg: Config, run: Run, m: nat, c: nat)
    requires IsRun(cfg, run) && ReadBegan(cfg, run, m, c)
    ensures !RunBegan(run, m, |run.states[m].runs|)
  {
    assert Happens(cfg, run, m);
  }

  /** A refresh in progress that has not had its answer yet. */
  predicate IsFetching(phase: Phase)
  {
    phase.AwaitAdmission? || phase.AwaitQuote?
  }

  /** A step that begins a run: the run captures what the step leaves held, and starts within the step. */
  ghost predicate Begins(s: Cache, t: Cache, at: Readings)
  {
    && |t.runs| == |s.runs| + 1 && |at| == READS
    && var r := t.runs[|s.runs|];
       r.previous == t.snapshot && at[0] <= r.started <= at[READS - 1] && IsFetching(r.phase)
  }

  lemma ServeBegins(cfg: Config, s: Cache, call: nat, at: Readings)
    requires call < |s.calls| && InOrder(at)
    ensures var t := Serve(cfg, s, call, at);
            && |s.runs| <= |t.runs| && (|t.runs| > |s.runs| ==> Begins(s, t, at))
            && forall r :: 0 <= r < |s.runs| ==> t.runs[r] == s.runs[r]
  {
  }

  /** Runs keep what they were begun with; one still fetching was fetching before. */
  lemma StepRuns(cfg: Config, s: Cache, a: Action, at: Readings)
    requires Enabled(s, a, at)
    ensures var t := Next(cfg, s, a, at);
            && |s.runs| <= |t.runs|
            && (|t.runs| > |s.runs| ==> Begins(s, t, at) && !a.QuoteAnswers?)
            && forall r :: 0 <= r < |s.runs| ==>
                 && t.runs[r].previous == s.runs[r].previous && t.runs[r].started == s.runs[r].started
                 && (IsFetching(t.runs[r].phase) ==> IsFetching(s.runs[r].phase))
  {
    match a {
      case CallBegins(input) =>
        ServeBegins(cfg, s.(calls := s.calls + [Call(input, AwaitStore)]), |s.calls|, at);
      case StoreAnswers(call, entry) =>
        ServeBegins(cfg, if Adopts(cfg, entry, at) then s.(snapshot := Some(entry.value.snapshot)) else s, call, at);
      case _ =>
    }
  }

  /** Every run began at an earlier step, and captured what that step left held. */
  lemma {:induction false} RunsBegan(cfg: Config, run: Run, n: nat, r: nat) returns (m: nat)
    requires IsRun(cfg, run) && n <= |run.actions| && r < |run.states[n].runs|
    ensures m < n && RunBegan(run, m, r) && Begins(run.states[m], run.states[m + 1], run.clocks[m])
    ensures run.states[n].runs[r].previous == run.states[m + 1].snapshot
    ensures run.states[n].runs[r].started == run.states[m + 1].runs[r].started
  {
    assert n > 0;
    assert Happens(cfg, run, n - 1);
    StepRuns(cfg, run.states[n - 1], run.actions[n - 1], run.clocks[n - 1]);
    if r < |run.states[n - 1].runs| {
      m := RunsBegan(cfg, run, n - 1, r);
    } else {
      m := n - 1;
    }
  }

  /** A run that is fetching has been fetching ever since it began. */
  lemma {:induction false} FetchingThroughout(cfg: Config, run: Run, k: nat, n: nat, r: nat)
    requires IsRun(cfg, run) && k <= n <= |run.actions| && r < |run.states[k].runs|
    requires r < |run.states[n].runs| && IsFetching(run.states[n].runs[r].phase)
    ensures IsFetching(run.states[k].runs[r].phase) && run.states[k].pending == Some(r)
    decreases n - k
  {
    RunInv(cfg, run, k);
    if k < n {
      assert Happens(cfg, run, k);
      StepRuns(cfg, run.states[k], run.actions[k], run.clocks[k]);
      FetchingThroughout(cfg, run, k + 1, n, r);
    }
  }

  // ----- writes of the held snapshot -----

  /** Step k installs a quote or adopts an entry. */
  ghost predicate WritesHeld(cfg: Config, run: Run, k: nat)
    requires IsHistory(run)
  {
    && k < |run.actions|
    && (|| AdoptsIn(cfg, run.actions[k], run.clocks[k])
        || (run.actions[k].QuoteAnswers? &&
            InstallsIn(cfg, run.states[k], run.actions[k], run.clocks[k], run.actions[k].run)))
  }

  /** Step k wrote what is held before step n. */
  ghost predicate WroteHeld(cfg: Config, run: Run, k: nat, n: nat)
    requires IsHistory(run)
  {
    k < n <= |run.actions| && WritesHeld(cfg, run, k) && run.states[k + 1].snapshot == run.states[n].snapshot
  }

  lemma {:induction false} LastWrite(cfg: Config, run: Run, m: nat, n: nat) returns (k: nat)
    requires IsRun(cfg, run) && m <= n <= |run.actions| && run.states[m].snapshot != run.states[n].snapshot
    ensures m <= k && WroteHeld(cfg, run, k, n)
  {
    assert Happens(cfg, run, n - 1);
    SnapshotAfter(cfg, run.states[n - 1], run.actions[n - 1], run.clocks[n - 1]);
    if run.states[n - 1].snapshot == run.states[n].snapshot {
      k := LastWrite(cfg, run, m, n - 1);
    } else {
      k := n - 1;
    }
  }

  /** While a run fetches nobody else installs, so what is written meanwhile is adopted. */
  lemma WritesMeanwhileAdopt(cfg: Config, run: Run, k: nat, n: nat, r: nat)
    requires IsRun(cfg, run) && k < n <= |run.actions| && WritesHeld(cfg, run, k)
    requires r < |run.states[k].runs| && r < |run.states[n].runs| && IsFetching(run.states[n].runs[r].phase)
    ensures AdoptsIn(cfg, run.actions[k], run.clocks[k])
  {
    var a := run.actions[k];
    assert Happens(cfg, run, k);
    if a.QuoteAnswers? {
      RunInv(cfg, run, k);
      FetchingThroughout(cfg, run, k, n, r);
      NextEvolves(cfg, run.states[k], a, run.clocks[k]);
      StepRuns(cfg, run.states[k], a, run.clocks[k]);
      FetchingThroughout(cfg, run, k + 1, n, r);
    }
  }

  // ----- the two races -----

  /** Step n adopts the answer of a read that began before what is now held was written. */
  ghost predicate RacingAdoption(cfg: Config, run: Run, n: nat)
    requires IsHistory(run)
  {
    && n < |run.actions| && run.actions[n].StoreAnswers? && AdoptsIn(cfg, run.actions[n], run.clocks[n])
    && exists m, k :: m < k && ReadBegan(cfg, run, m, run.actions[n].call) && WroteHeld(cfg, run, k, n)
  }

  /** Step k adopted, after run r began at step m, the answer of a read that began before that. */
  ghost predicate AdoptedMeanwhile(cfg: Config, run: Run, b: nat, m: nat, k: nat, r: nat)
    requires IsHistory(run)
  {
    && b < m < k < |run.actions| && RunBegan(run, m, r) && run.actions[k].StoreAnswers?
    && AdoptsIn(cfg, run.actions[k], run.clocks[k]) && ReadBegan(cfg, run, b, run.actions[k].call)
  }

  /** Step n installs the quote of a run, and what is held was adopted since that run began. */
  ghost predicate RacingInstall(cfg: Config, run: Run, n: nat)
    requires IsHistory(run)
  {
    && n < |run.actions| && run.actions[n].QuoteAnswers?
    && InstallsIn(cfg, run.states[n], run.actions[n], run.clocks[n], run.actions[n].run)
    && exists b, m, k ::
         AdoptedMeanwhile(cfg, run, b, m, k, run.actions[n].run) && WroteHeld(cfg, run, k, n)
  }

  /** A call adopts in a race, or finds held what was held, and invalid, when its read began. */
  lemma AdoptionRaces(cfg: Config, run: Run, n: nat) returns (m: nat)
    requires IsRun(cfg, run) && n < |run.actions| && AdoptsIn(cfg, run.actions[n], run.clocks[n])
    ensures m < n && |run.clocks[m]| == READS
    ensures RacingAdoption(cfg, run, n) || run.states[m].snapshot == run.states[n].snapshot
    ensures !Valid(cfg, run.states[m].snapshot, run.clocks[m][2], run.clocks[m][3])
  {
    assert Happens(cfg, run, n);
    m := ReadsBegan(cfg, run, n, run.actions[n].call);
    if run.states[m].snapshot != run.states[n].snapshot {
      var k := LastWrite(cfg, run, m, n);
      assert m < k;
    }
  }

  /** A run installs in a race, or captured what is held. */
  lemma InstallRaces(cfg: Config, run: Run, n: nat)
    requires IsRun(cfg, run) && n < |run.actions| && run.actions[n].QuoteAnswers?
    requires InstallsIn(cfg, run.states[n], run.actions[n], run.clocks[n], run.actions[n].run)
    ensures RacingInstall(cfg, run, n) || run.states[n].runs[run.actions[n].run].previous == run.states[n].snapshot
  {
    var r := run.actions[n].run;
    assert Happens(cfg, run, n);
    var m := RunsBegan(cfg, run, n, r);
    if run.states[m + 1].snapshot != run.states[n].snapshot {
      var k := LastWrite(cfg, run, m + 1, n);
      RunsOnlyGrow(cfg, run, m + 1, k);
      WritesMeanwhileAdopt(cfg, run, k, n, r);
      assert Happens(cfg, run, k);
      var b := ReadsBegan(cfg, run, k, run.actions[k].call);
      ReadBeforeRun(cfg, run, b, run.actions[k].call, m, n, r);
      assert AdoptedMeanwhile(cfg, run, b, m, k, r);
    }
  }

  lemma {:induction false} RunsOnlyGrow(cfg: Config, run: Run, m: nat, n: nat)
    requires IsRun(cfg, run) && m <= n <= |run.actions|
    ensures |run.states[m].runs| <= |run.states[n].runs|
  {
    if m < n {
      RunsOnlyGrow(cfg, run, m, n - 1);
      assert Happens(cfg, run, n - 1);
      StepRuns(cfg, run.states[n - 1], run.actions[n - 1], run.clocks[n - 1]);
    }
  }

  /** No read begins while a run is in progress, nor in the step that begins it. */
  lemma ReadBeforeRun(cfg: Config, run: Run, b: nat, c: nat, m: nat, n: nat, r: nat)
    requires IsRun(cfg, run) && b < n <= |run.actions| && m < n && ReadBegan(cfg, run, b, c) && RunBegan(run, m, r)
    requires r < |run.states[n].runs| && IsFetching(run.states[n].runs[r].phase)
    ensures b < m
  {
    if b == m {
      ReadStartsNoRun(cfg, run, b, c);
    } else if b > m {
      RunsOnlyGrow(cfg, run, m + 1, b);
      FetchingThroughout(cfg, run, b, n, r);
    }
  }

  // ----- coverage -----

  /** What is held and has not expired is still valid at every earlier reading. */
  lemma UnexpiredIsValid(cfg: Config, run: Run, m: nat, n: nat)
    requires IsRun(cfg, run) && m < n < |run.actions| && |run.clocks[m]| == READS
    requires run.states[n].snapshot.Some? && run.states[n + 1].now < run.states[n].snapshot.value.expiresAt
    ensures run.states[m].snapshot == run.states[n].snapshot ==>
              Valid(cfg, run.states[m].snapshot, run.clocks[m][2], run.clocks[m][3])
  {
    RunInv(cfg, run, m);
    assert Happens(cfg, run, m);
    ClockAdvances(cfg, run, m + 1, n + 1);
  }

  lemma {:induction false} ClockAdvances(cfg: Config, run: Run, m: nat, n: nat)
    requires IsRun(cfg, run) && m <= n <= |run.actions|
    ensures run.states[m].now <= run.states[n].now
  {
    if m < n {
      ClockAdvances(cfg, run, m, n - 1);
      assert Happens(cfg, run, n - 1);
    }
  }

  /**
    A step loses coverage that has not expired exactly when it writes something narrower in a race:
    it adopts the answer of a read that began before what is held was written, or it installs the
    quote of a run that began before what is held was adopted, from a read that began before the run.
   */
  lemma CoverageLossExplained(cfg: Config, run: Run, n: nat)
    requires IsRun(cfg, run) && n < |run.actions| && run.states[n].snapshot.Some?
    requires run.states[n + 1].now < run.states[n].snapshot.value.expiresAt
    ensures LosesUnexpired(run, n) <==>
              || (RacingAdoption(cfg, run, n) &&
                  !(run.states[n].snapshot.value.rates.Keys <= run.actions[n].entry.value.snapshot.rates.Keys))
              || (RacingInstall(cfg, run, n) &&
                  !(run.states[n].snapshot.value.rates.Keys <=
                    Usable(cfg, run.actions[n].quote.value.rates).Keys))
  {
    var s, a, at := run.states[n], run.actions[n], run.clocks[n];
    assert Happens(cfg, run, n);
    RunInv(cfg, run, n);
    SnapshotAfter(cfg, s, a, at);
    if AdoptsIn(cfg, a, at) {
      var m := AdoptionRaces(cfg, run, n);
      UnexpiredIsValid(cfg, run, m, n);
    }
    if a.QuoteAnswers? && InstallsIn(cfg, s, a, at, a.run) {
      InstallRaces(cfg, run, n);
    }
  }

  // ----- the time of the held quote -----

  /** Providers are asked, and quotes stamped, after the run that asks has started. */
  ghost predicate StampedInside(run: Run)
    requires IsHistory(run)
  {
    forall n :: 0 <= n < |run.actions| && run.actions[n].QuoteAnswers? && run.actions[n].quote.Some? &&
                run.actions[n].run < |run.states[n].runs| ==>
      run.actions[n].quote.value.fetchedAt >= run.states[n].runs[run.actions[n].run].started
  }

  /** Entries under our signature are attestations this service made, which last a rate's whole freshness. */
  ghost predicate OwnEntries(run: Run)
  {
    forall n :: 0 <= n < |run.actions| && run.actions[n].StoreAnswers? && run.actions[n].entry.Some? &&
                run.actions[n].entry.value.genuine ==>
      var s := run.actions[n].entry.value.snapshot; s.expiresAt == s.fetchedAt + MAX_AGE_MS
  }

  /** The held quote was fetched before it was issued, and lasts exactly its freshness. */
  ghost predicate IsOwn(held: Option<Snapshot>)
  {
    held.Some? ==>
      held.value.fetchedAt <= held.value.issuedAt && held.value.expiresAt == held.value.fetchedAt + MAX_AGE_MS
  }

  lemma {:induction false} HeldIsOwn(cfg: Config, run: Run, n: nat)
    requires IsRun(cfg, run) && OwnEntries(run) && n <= |run.actions|
    ensures IsOwn(run.states[n].snapshot)
  {
    if n > 0 {
      HeldIsOwn(cfg, run, n - 1);
      assert Happens(cfg, run, n - 1);
      SnapshotAfter(cfg, run.states[n - 1], run.actions[n - 1], run.clocks[n - 1]);
    }
  }

  /** A step that begins a run leaves held something issued before the run started. */
  lemma HeldBeforeStart(cfg: Config, run: Run, m: nat, r: nat)
    requires IsRun(cfg, run) && RunBegan(run, m, r) && run.states[m + 1].snapshot.Some?
    ensures run.states[m + 1].snapshot.value.issuedAt <= run.states[m + 1].runs[r].started
  {
    var s, a, at := run.states[m], run.actions[m], run.clocks[m];
    assert Happens(cfg, run, m);
    RunInv(cfg, run, m);
    StepRuns(cfg, s, a, at);
    SnapshotAfter(cfg, s, a, at);
  }

  /** What a run captured was fetched no later than the run started. */
  lemma CapturedBeforeStart(cfg: Config, run: Run, n: nat, r: nat)
    requires IsRun(cfg, run) && OwnEntries(run) && n <= |run.actions| && r < |run.states[n].runs|
    requires run.states[n].runs[r].previous.Some?
    ensures run.states[n].runs[r].previous.value.fetchedAt <= run.states[n].runs[r].started
  {
    var m := RunsBegan(cfg, run, n, r);
    HeldIsOwn(cfg, run, m + 1);
    HeldBeforeStart(cfg, run, m, r);
  }

  /** Step n replaces what is held by something fetched earlier. */
  ghost predicate GoesBack(run: Run, n: nat)
    requires n < |run.actions| < |run.states|
  {
    var held, after := run.states[n].snapshot, run.states[n + 1].snapshot;
    held.Some? && after.Some? && after.value.fetchedAt < held.value.fetchedAt
  }

  /** What expired before a read was answered was fetched before any entry that is valid then. */
  lemma ExpiredIsOlder(cfg: Config, run: Run, m: nat, n: nat)
    requires IsRun(cfg, run) && OwnEntries(run) && m < n < |run.actions| && |run.clocks[m]| == READS
    requires AdoptsIn(cfg, run.actions[n], run.clocks[n])
    requires run.states[n].snapshot.Some? && !Valid(cfg, run.states[m].snapshot, run.clocks[m][2], run.clocks[m][3])
    ensures run.states[m].snapshot == run.states[n].snapshot ==>
              run.states[n].snapshot.value.fetchedAt < run.actions[n].entry.value.snapshot.fetchedAt
  {
    RunInv(cfg, run, m);
    HeldIsOwn(cfg, run, n);
    assert Happens(cfg, run, m) && Happens(cfg, run, n);
    ClockAdvances(cfg, run, m + 1, n);
  }

  /** `fetchedAt` goes back exactly when one of the same two races writes something fetched earlier. */
  lemma RegressExplained(cfg: Config, run: Run, n: nat)
    requires IsRun(cfg, run) && StampedInside(run) && OwnEntries(run)
    requires n < |run.actions| && run.states[n].snapshot.Some?
    ensures GoesBack(run, n) <==>
              || (RacingAdoption(cfg, run, n) &&
                  run.actions[n].entry.value.snapshot.fetchedAt < run.states[n].snapshot.value.fetchedAt)
              || (RacingInstall(cfg, run, n) &&
                  run.actions[n].quote.value.fetchedAt < run.states[n].snapshot.value.fetchedAt)
  {
    var s, a, at := run.states[n], run.actions[n], run.clocks[n];
    assert Happens(cfg, run, n);
    SnapshotAfter(cfg, s, a, at);
    if AdoptsIn(cfg, a, at) {
      var m := AdoptionRaces(cfg, run, n);
      ExpiredIsOlder(cfg, run, m, n);
    }
    if a.QuoteAnswers? && InstallsIn(cfg, s, a, at, a.run) {
      InstallRaces(cfg, run, n);
      if s.runs[a.run].previous.Some? {
        CapturedBeforeStart(cfg, run, n, a.run);
      }
    }
  }

  // ----- without a store, or without overlap -----

  lemma NoStoreNoAnswers(cfg: Config, run: Run, n: nat)
    requires IsRun(cfg, run) && NoStore(run) && n < |run.actions|
    ensures !run.actions[n].StoreAnswers?
  {
    assert Happens(cfg, run, n);
    RunCaptures(cfg, run, n);
  }

  /** Without a store `fetchedAt` never goes back, in any interleaving. */
  lemma FetchedAtNeverGoesBackWithoutStore(cfg: Config, run: Run, n: nat)
    requires IsRun(cfg, run) && NoStore(run) && StampedInside(run) && n < |run.actions|
    ensures !GoesBack(run, n)
  {
    forall k | 0 <= k < |run.actions| ensures !run.actions[k].StoreAnswers? {
      NoStoreNoAnswers(cfg, run, k);
    }
    if run.states[n].snapshot.Some? {
      RegressExplained(cfg, run, n);
    }
  }

  /** While the read answered at step n was under way, something was written or a refresh began. */
  ghost predicate WasDisturbed(cfg: Config, run: Run, n: nat)
    requires IsHistory(run)
  {
    && n < |run.actions| && run.actions[n].StoreAnswers?
    && exists m: nat, k: nat :: ReadBegan(cfg, run, m, run.actions[n].call) && Disturbs(cfg, run, m, k, n)
  }

  ghost predicate Disturbs(cfg: Config, run: Run, m: nat, k: nat, n: nat)
    requires IsHistory(run)
  {
    m < k < n < |run.actions| && (WritesHeld(cfg, run, k) || RunBegan(run, k, |run.states[k].runs|))
  }

  lemma RacingAdoptionIsDisturbed(cfg: Config, run: Run, n: nat)
    requires IsRun(cfg, run) && RacingAdoption(cfg, run, n)
    ensures WasDisturbed(cfg, run, n)
  {
    var m, k :| m < k && ReadBegan(cfg, run, m, run.actions[n].call) && WroteHeld(cfg, run, k, n);
    assert Disturbs(cfg, run, m, k, n);
  }

  lemma RacingInstallIsDisturbed(cfg: Config, run: Run, n: nat) returns (k: nat)
    requires IsRun(cfg, run) && RacingInstall(cfg, run, n)
    ensures k < n && WasDisturbed(cfg, run, k)
  {
    var b, m, j :| AdoptedMeanwhile(cfg, run, b, m, j, run.actions[n].run) && WroteHeld(cfg, run, j, n);
    k := j;
    assert Disturbs(cfg, run, b, m, k);
  }

  /** If no read of the store overlaps a write or the start of a refresh, a store does no harm at all. */
  lemma UndisturbedReadsDoNoHarm(cfg: Config, run: Run, n: nat)
    requires IsRun(cfg, run) && n < |run.actions| && run.states[n].snapshot.Some?
    requires forall k: nat :: !WasDisturbed(cfg, run, k)
    ensures !LosesUnexpired(run, n)
    ensures StampedInside(run) && OwnEntries(run) ==> !GoesBack(run, n)
  {
    if RacingAdoption(cfg, run, n) {
      RacingAdoptionIsDisturbed(cfg, run, n);
    }
    if RacingInstall(cfg, run, n) {
      var k := RacingInstallIsDisturbed(cfg, run, n);
    }
    if run.states[n + 1].now < run.states[n].snapshot.value.expiresAt {
      CoverageLossExplained(cfg, run, n);
    }
    if StampedInside(run) && OwnEntries(run) {
      RegressExplained(cfg, run, n);
    }
  }

  // ----- a race that happens -----

  function Still(t: int): Readings
  {
    seq(READS, i => t)
  }

  const PLAIN := Input(true, false, false)

  /** The wider quote that arrives first, and the older entry that arrives after it. */
  function Wide(cfg: Config): Snapshot
  {
    Snapshot(cfg.keyId, 100, 100 + MAX_AGE_MS, 100, map["EUR" := 1.1])
  }

  function Stale(cfg: Config): Snapshot
  {
    Snapshot(cfg.keyId, 50, 50 + MAX_AGE_MS, 50, map[])
  }

  /** Two callers find memory empty and ask the store; one gets nothing and fetches, one gets the entry. */
  function Race(cfg: Config): Run
  {
    var waiting, fetching := Call(PLAIN, AwaitStore), Call(PLAIN, AwaitCold(0));
    Run([EMPTY,
         Cache(0, None, None, 0, [], [waiting]),
         Cache(0, None, None, 0, [], [waiting, waiting]),
         Cache(0, None, Some(0), 0, [Refresh(PLAIN, 0, None, AwaitQuote)], [waiting, fetching]),
         Cache(100, Some(Wide(cfg)), Some(0), 0, [Refresh(PLAIN, 0, None, AwaitWrite)], [waiting, fetching]),
         Cache(100, Some(Stale(cfg)), Some(0), 0, [Refresh(PLAIN, 0, None, AwaitWrite)],
               [Call(PLAIN, Returned(Stale(cfg), 100)), fetching])],
        [CallBegins(PLAIN),
         CallBegins(PLAIN),
         StoreAnswers(1, None),
         QuoteAnswers(0, Some(Quote(100, map["EUR" := 1.1])), true),
         StoreAnswers(0, Some(Entry(Stale(cfg), true)))],
        [Still(0), Still(0), Still(0), Still(100), Still(100)])
  }

  lemma RaceBegins(cfg: Config)
    ensures Happens(cfg, Race(cfg), 0) && Happens(cfg, Race(cfg), 1)
  {
  }

  lemma RaceMisses(cfg: Config)
    ensures Happens(cfg, Race(cfg), 2)
  {
  }

  lemma RaceInstalls(cfg: Config)
    requires "EUR" in cfg.currencies
    ensures Happens(cfg, Race(cfg), 3)
  {
    assert Usable(cfg, map["EUR" := 1.1]) == map["EUR" := 1.1];
  }

  lemma RaceAdopts(cfg: Config)
    ensures Happens(cfg, Race(cfg), 4)
  {
  }

  lemma RaceIsRun(cfg: Config)
    requires "EUR" in cfg.currencies
    ensures IsRun(cfg, Race(cfg)) && StampedInside(Race(cfg)) && OwnEntries(Race(cfg))
  {
    RaceBegins(cfg);
    RaceMisses(cfg);
    RaceInstalls(cfg);
    RaceAdopts(cfg);
  }

  /**
    A store read that began while memory was empty may end after a refresh has installed, and its
    older, narrower entry then replaces the newer snapshot: neither `fetchedAt` nor coverage is
    monotone once a store is present. Two callers suffice.
   */
  lemma StaleStoreReadReplacesFreshQuote(cfg: Config)
    requires "EUR" in cfg.currencies
    ensures var run := Race(cfg);
            && IsRun(cfg, run) && StampedInside(run) && OwnEntries(run)
            && RacingAdoption(cfg, run, 4) && LosesUnexpired(run, 4) && GoesBack(run, 4)
  {
    RaceIsRun(cfg);
    assert "EUR" in Wide(cfg).rates.Keys && "EUR" !in Stale(cfg).rates.Keys;
    RegressExplained(cfg, Race(cfg), 4);
  }

  // ----- the other race -----

  function Adopted(cfg: Config): Snapshot
  {
    Snapshot(cfg.keyId, 50, 50 + MAX_AGE_MS, 50, map["EUR" := 1.1])
  }

  function Late(cfg: Config): Snapshot
  {
    Snapshot(cfg.keyId, 100, 10 + MAX_AGE_MS, 10, map[])
  }

  /** Two callers ask the store; one gets nothing and fetches, and one gets an entry before the quote is there. */
  function LateQuote(cfg: Config): Run
  {
    var waiting, fetching := Call(PLAIN, AwaitStore), Call(PLAIN, AwaitCold(0));
    var served := Call(PLAIN, Returned(Adopted(cfg), 80));
    Run([EMPTY,
         Cache(0, None, None, 0, [], [waiting]),
         Cache(0, None, None, 0, [], [waiting, waiting]),
         Cache(5, None, Some(0), 0, [Refresh(PLAIN, 5, None, AwaitQuote)], [waiting, fetching]),
         Cache(80, Some(Adopted(cfg)), Some(0), 0, [Refresh(PLAIN, 5, None, AwaitQuote)], [served, fetching]),
         Cache(100, Some(Late(cfg)), Some(0), 0, [Refresh(PLAIN, 5, None, AwaitWrite)], [served, fetching])],
        [CallBegins(PLAIN),
         CallBegins(PLAIN),
         StoreAnswers(1, None),
         StoreAnswers(0, Some(Entry(Adopted(cfg), true))),
         QuoteAnswers(0, Some(Quote(10, map[])), true)],
        [Still(0), Still(0), Still(5), Still(80), Still(100)])
  }

  lemma LateQuoteBegins(cfg: Config)
    ensures Happens(cfg, LateQuote(cfg), 0) && Happens(cfg, LateQuote(cfg), 1) && Happens(cfg, LateQuote(cfg), 2)
  {
  }

  lemma LateQuoteAdopts(cfg: Config)
    requires "EUR" in cfg.currencies
    ensures Happens(cfg, LateQuote(cfg), 3)
  {
    assert Adopted(cfg).rates.Keys <= cfg.currencies;
  }

  lemma LateQuoteInstalls(cfg: Config)
    ensures Happens(cfg, LateQuote(cfg), 4)
  {
    assert Usable(cfg, map[]) == map[];
  }

  lemma LateQuoteIsRun(cfg: Config)
    requires "EUR" in cfg.currencies
    ensures IsRun(cfg, LateQuote(cfg)) && StampedInside(LateQuote(cfg)) && OwnEntries(LateQuote(cfg))
  {
    LateQuoteBegins(cfg);
    LateQuoteAdopts(cfg);
    LateQuoteInstalls(cfg);
  }

  /**
    A quote may be stamped before an entry is adopted and arrive after it: the refresh captured
    nothing, so its older, narrower quote replaces the adopted snapshot.
   */
  lemma LateQuoteReplacesAdoptedEntry(cfg: Config)
    requires "EUR" in cfg.currencies
    ensures var run := LateQuote(cfg);
            && IsRun(cfg, run) && StampedInside(run) && OwnEntries(run)
            && RacingInstall(cfg, run, 4) && LosesUnexpired(run, 4) && GoesBack(run, 4)
  {
    LateQuoteIsRun(cfg);
    assert "EUR" in Adopted(cfg).rates.Keys && "EUR" !in Late(cfg).rates.Keys;
    RegressExplained(cfg, LateQuote(cfg), 4);
  }
}
