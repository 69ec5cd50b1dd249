/**
  The signer's pricing cache as a state machine. Every `await` of the source is a point where other
  calls may run, so each action below is one stretch of code between two awaits. One action may read
  the clock several times; its readings never decrease, and never lag behind earlier actions.
 */
module PricingCache {
  import opened Wrappers

  const REFRESH_AFTER_MS := 240_000
  const FAILED_REFRESH_PAUSE_MS := 5_000
  const MAX_AGE_MS := 300_000

  datatype Snapshot = Snapshot(
    keyId: string,
    issuedAt: int,
    expiresAt: int,
    fetchedAt: int,
    rates: map<string, real>)

  /** A provider's answer; currencies without a usable rate are dropped on arrival. */
  datatype Quote = Quote(fetchedAt: int, rates: map<string, real>)

  /** An entry of the second-level store; `genuine` says its format and signature check out. */
  datatype Entry = Entry(snapshot: Snapshot, genuine: bool)

  datatype Config = Config(keyId: string, currencies: set<string>)

  /** What one caller passes in: a second-level store, a background hook, an admission check. */
  datatype Input = Input(hasStore: bool, hasWaitUntil: bool, hasAdmission: bool)

  datatype Phase =
    | AwaitAdmission
    | AwaitQuote
    | AwaitWrite
    | Throwing
    | Failed(at: int)
    | Done

  /** One refresh run: who started it, when, and the snapshot it captured at its start. */
  datatype Refresh = Refresh(input: Input, started: int, previous: Option<Snapshot>, phase: Phase)
  {
    predicate Settled()
    {
      phase.Failed? || phase.Done?
    }

    predicate Installed()
    {
      phase.AwaitWrite? || phase.Done?
    }
  }

  datatype CallPhase =
    | AwaitStore
    | AwaitStale(run: nat)
    | AwaitCold(run: nat)
    | Returned(snapshot: Snapshot, at: int)
    | Threw

  datatype Call = Call(input: Input, phase: CallPhase)

  /** The closure's variables, and the suspended frames of calls and refresh runs. */
  datatype Cache = Cache(
    now: int,
    snapshot: Option<Snapshot>,
    pending: Option<nat>,
    nextAttempt: int,
    runs: seq<Refresh>,
    calls: seq<Call>)

  const EMPTY := Cache(0, None, None, 0, [], [])

  /** Clock readings of one action, oldest first. */
  type Readings = seq<int>

  const READS := 11

  predicate InOrder(at: Readings)
  {
    |at| == READS && forall i, j :: 0 <= i <= j < READS ==> at[i] <= at[j]
  }

  /** `valid`: two clock readings, one for each bound. */
  predicate Valid(cfg: Config, value: Option<Snapshot>, t0: int, t1: int)
  {
    value.Some? && value.value.keyId == cfg.keyId && value.value.issuedAt <= t0 && t1 < value.value.expiresAt
  }

  function SetCall(s: Cache, call: nat, phase: CallPhase): Cache
    requires call < |s.calls|
  {
    s.(calls := s.calls[call := s.calls[call].(phase := phase)])
  }

  function SetRun(s: Cache, run: nat, phase: Phase): Cache
    requires run < |s.runs|
  {
    s.(runs := s.runs[run := s.runs[run].(phase := phase)])
  }

  /** `startRefresh`: joins the pending run, or begins one that captures the held snapshot. */
  function StartRefresh(s: Cache, input: Input, at: int): (Cache, nat)
  {
    if s.pending.Some? then (s, s.pending.value)
    else
      (s.(runs := s.runs + [Refresh(input, at, s.snapshot, if input.hasAdmission then AwaitAdmission else AwaitQuote)],
          pending := Some(|s.runs|)),
       |s.runs|)
  }

  function Cold(s: Cache, call: nat, at: Readings): Cache
    requires call < |s.calls| && |at| == READS
  {
    if at[10] < s.nextAttempt && s.pending.None? then SetCall(s, call, Threw)
    else
      var (t, run) := StartRefresh(s, s.calls[call].input, at[10]);
      SetCall(t, call, AwaitCold(run))
  }

  function ReturnOrCold(cfg: Config, s: Cache, call: nat, at: Readings): Cache
    requires call < |s.calls| && |at| == READS
  {
    if Valid(cfg, s.snapshot, at[8], at[9]) then SetCall(s, call, Returned(s.snapshot.value, at[9]))
    else Cold(s, call, at)
  }

  /** The body of `snapshot` after the store read: serve, refresh when stale, or wait. */
  function Serve(cfg: Config, s: Cache, call: nat, at: Readings): Cache
    requires call < |s.calls| && |at| == READS
  {
    if !Valid(cfg, s.snapshot, at[4], at[5]) then Cold(s, call, at)
    else if at[6] - s.snapshot.value.fetchedAt >= REFRESH_AFTER_MS && at[7] >= s.nextAttempt then
      var (t, run) := StartRefresh(s, s.calls[call].input, at[7]);
      if s.calls[call].input.hasWaitUntil then ReturnOrCold(cfg, t, call, at)
      else SetCall(t, call, AwaitStale(run))
    else ReturnOrCold(cfg, s, call, at)
  }

  function Begin(cfg: Config, s: Cache, input: Input, at: Readings): Cache
    requires |at| == READS
  {
    var t := s.(calls := s.calls + [Call(input, AwaitStore)]);
    if !Valid(cfg, s.snapshot, at[2], at[3]) && input.hasStore && s.pending.None? then t
    else Serve(cfg, t, |s.calls|, at)
  }

  /** An attestation is issued after its rate was fetched and expires within that rate's freshness. */
  predicate IsAttestation(s: Snapshot)
  {
    s.fetchedAt <= s.issuedAt < s.expiresAt <= s.fetchedAt + MAX_AGE_MS
  }

  /** Whether an entry read from the store is adopted: current policy, our key, signed, unexpired. */
  predicate Adopts(cfg: Config, entry: Option<Entry>, at: Readings)
    requires |at| == READS
  {
    && entry.Some? && entry.value.genuine && IsAttestation(entry.value.snapshot)
    && entry.value.snapshot.rates.Keys <= cfg.currencies
    && Valid(cfg, Some(entry.value.snapshot), at[0], at[0])
    && Valid(cfg, Some(entry.value.snapshot), at[0], at[1])
  }

  function StoreRead(cfg: Config, s: Cache, call: nat, entry: Option<Entry>, at: Readings): Cache
    requires call < |s.calls| && |at| == READS
  {
    var t := if Adopts(cfg, entry, at) then s.(snapshot := Some(entry.value.snapshot)) else s;
    Serve(cfg, t, call, at)
  }

  /** Rates kept from a quote: supported currencies with a positive rate. */
  function Usable(cfg: Config, rates: map<string, real>): map<string, real>
  {
    map currency | currency in rates && currency in cfg.currencies && rates[currency] > 0.0 :: rates[currency]
  }

  /** The guard against losing coverage: the captured snapshot is still valid and has more. */
  predicate LosesCoverage(cfg: Config, previous: Option<Snapshot>, rates: map<string, real>, t0: int, t1: int)
  {
    Valid(cfg, previous, t0, t1) && !(previous.value.rates.Keys <= rates.Keys)
  }

  /** The snapshot a quote leads to, or None when the run throws instead. */
  function Installs(cfg: Config, run: Refresh, quote: Option<Quote>, signable: bool, at: Readings): Option<Snapshot>
    requires |at| == READS
  {
    if quote.None? then None
    else
      var fetchedAt, rates := quote.value.fetchedAt, Usable(cfg, quote.value.rates);
      if fetchedAt > at[0] || at[1] >= fetchedAt + MAX_AGE_MS then None
      else if LosesCoverage(cfg, run.previous, rates, at[2], at[3]) then None
      else if !signable || fetchedAt > at[4] || at[4] >= fetchedAt + MAX_AGE_MS then None
      else Some(Snapshot(cfg.keyId, at[4], fetchedAt + MAX_AGE_MS, fetchedAt, rates))
  }

  function QuoteArrives(cfg: Config, s: Cache, run: nat, quote: Option<Quote>, signable: bool, at: Readings): Cache
    requires run < |s.runs| && |at| == READS
  {
    match Installs(cfg, s.runs[run], quote, signable, at)
    case None => SetRun(s, run, Throwing)
    case Some(snapshot) =>
      SetRun(s, run, if s.runs[run].input.hasStore then AwaitWrite else Done)
        .(snapshot := Some(snapshot), nextAttempt := 0)
  }

  function Resume(cfg: Config, s: Cache, call: nat, at: Readings): Cache
    requires call < |s.calls| && |at| == READS
    requires s.calls[call].phase.AwaitStale? || s.calls[call].phase.AwaitCold?
    requires s.calls[call].phase.run < |s.runs|
  {
    if s.calls[call].phase.AwaitStale? then ReturnOrCold(cfg, s, call, at)
    else if s.runs[s.calls[call].phase.run].phase.Failed? || !Valid(cfg, s.snapshot, at[8], at[9])
    then SetCall(s, call, Threw)
    else SetCall(s, call, Returned(s.snapshot.value, at[9]))
  }

  datatype Action =
    | CallBegins(input: Input)
    | StoreAnswers(call: nat, entry: Option<Entry>)
    | AdmissionAnswers(run: nat, admitted: bool)
    | QuoteAnswers(run: nat, quote: Option<Quote>, signable: bool)
    | WriteEnds(run: nat)
    | FailureHandled(run: nat)
    | PendingCleared(run: nat)
    | CallResumes(call: nat)

  predicate Enabled(s: Cache, a: Action, at: Readings)
  {
    && InOrder(at) && s.now <= at[0]
    && match a
       case CallBegins(_) => true
       case StoreAnswers(call, _) => call < |s.calls| && s.calls[call].phase.AwaitStore?
       case AdmissionAnswers(run, _) => run < |s.runs| && s.runs[run].phase.AwaitAdmission?
       case QuoteAnswers(run, _, _) => run < |s.runs| && s.runs[run].phase.AwaitQuote?
       case WriteEnds(run) => run < |s.runs| && s.runs[run].phase.AwaitWrite?
       case FailureHandled(run) => run < |s.runs| && s.runs[run].phase.Throwing?
       case PendingCleared(run) => run < |s.runs| && s.runs[run].Settled()
       case CallResumes(call) =>
         && call < |s.calls| && (s.calls[call].phase.AwaitStale? || s.calls[call].phase.AwaitCold?)
         && s.calls[call].phase.run < |s.runs| && s.runs[s.calls[call].phase.run].Settled()
  }

  function ClearPending(s: Cache, run: nat): Cache
  {
    if s.pending == Some(run) then s.(pending := None) else s
  }

  function FailRun(s: Cache, run: nat, at: int): Cache
    requires run < |s.runs|
  {
    SetRun(s, run, Failed(at)).(nextAttempt := at + FAILED_REFRESH_PAUSE_MS)
  }

  function Act(cfg: Config, s: Cache, a: Action, at: Readings): Cache
    requires Enabled(s, a, at)
  {
    match a
    case CallBegins(input) => Begin(cfg, s, input, at)
    case StoreAnswers(call, entry) => StoreRead(cfg, s, call, entry, at)
    case AdmissionAnswers(run, admitted) => SetRun(s, run, if admitted then AwaitQuote else Throwing)
    case QuoteAnswers(run, quote, signable) => QuoteArrives(cfg, s, run, quote, signable, at)
    case WriteEnds(run) => SetRun(s, run, Done)
    case FailureHandled(run) => FailRun(s, run, at[0])
    case PendingCleared(run) => ClearPending(s, run)
    case CallResumes(call) => Resume(cfg, s, call, at)
  }

  function Next(cfg: Config, s: Cache, a: Action, at: Readings): Cache
    requires Enabled(s, a, at)
  {
    Act(cfg, s, a, at).(now := at[READS - 1])
  }

  datatype Run = Run(states: seq<Cache>, actions: seq<Action>, clocks: seq<Readings>)

  ghost predicate Happens(cfg: Config, run: Run, n: nat)
    requires |run.states| == |run.actions| + 1 && |run.clocks| == |run.actions| && n < |run.actions|
  {
    && Enabled(run.states[n], run.actions[n], run.clocks[n])
    && run.states[n + 1] == Next(cfg, run.states[n], run.actions[n], run.clocks[n])
  }

  /** Any interleaving of any number of calls and refresh runs, from a cold start. */
  ghost predicate IsRun(cfg: Config, run: Run)
  {
    && |run.states| == |run.actions| + 1 && |run.clocks| == |run.actions|
    && run.states[0] == EMPTY
    && forall n :: 0 <= n < |run.actions| ==> Happens(cfg, run, n)
  }

  // ----- invariants -----

  /** At most one run is in progress, it is the newest, and `pending` names it. */
  ghost predicate SingleFlight(s: Cache)
  {
    && (forall r :: 0 <= r < |s.runs| && !s.runs[r].Settled() ==> s.pending == Some(r))
    && (s.pending.Some? ==> s.pending.value == |s.runs| - 1)
  }

  /** A run failed no earlier than it started, and neither lies in the future. */
  ghost predicate Timed(r: Refresh, now: int)
  {
    r.started <= now && (r.phase.Failed? ==> r.started <= r.phase.at <= now)
  }

  /** A start respects the pause after the failure before it. */
  ghost predicate Spaced(earlier: Refresh, later: Refresh)
  {
    earlier.phase.Failed? ==> later.started >= earlier.phase.at + FAILED_REFRESH_PAUSE_MS
  }

  ghost predicate Paced(s: Cache, now: int)
  {
    && (forall r :: 0 <= r < |s.runs| ==> Timed(s.runs[r], now))
    && (forall r, q :: 0 <= r < |s.runs| && q == r + 1 && q < |s.runs| ==> Spaced(s.runs[r], s.runs[q]))
    && (|s.runs| > 0 && s.runs[|s.runs| - 1].phase.Failed? ==>
          s.nextAttempt == s.runs[|s.runs| - 1].phase.at + FAILED_REFRESH_PAUSE_MS)
  }

  ghost predicate HeldIsOurs(cfg: Config, s: Cache, now: int)
  {
    s.snapshot.Some? ==> s.snapshot.value.keyId == cfg.keyId && s.snapshot.value.issuedAt <= now
  }

  /** What a call returned was valid at the last clock reading before it was returned. */
  ghost predicate FreshReturn(cfg: Config, phase: CallPhase, now: int)
  {
    phase.Returned? ==> Valid(cfg, Some(phase.snapshot), phase.at, phase.at) && phase.at <= now
  }

  /** A suspended caller waits for a run that exists. */
  ghost predicate WaitExists(s: Cache, phase: CallPhase)
  {
    phase.AwaitStale? || phase.AwaitCold? ==> phase.run < |s.runs|
  }

  ghost predicate CallsAreSound(cfg: Config, s: Cache, now: int)
  {
    forall c :: 0 <= c < |s.calls| ==> FreshReturn(cfg, s.calls[c].phase, now) && WaitExists(s, s.calls[c].phase)
  }

  ghost predicate Inv(cfg: Config, s: Cache, now: int)
  {
    SingleFlight(s) && Paced(s, now) && HeldIsOurs(cfg, s, now) && CallsAreSound(cfg, s, now)
  }

  lemma InvLater(cfg: Config, s: Cache, now: int, later: int)
    requires Inv(cfg, s, now) && now <= later
    ensures Inv(cfg, s, later)
  {
    forall r | 0 <= r < |s.runs| ensures Timed(s.runs[r], later) {
      assert Timed(s.runs[r], now);
    }
    forall c | 0 <= c < |s.calls| ensures FreshReturn(cfg, s.calls[c].phase, later) {
      assert FreshReturn(cfg, s.calls[c].phase, now);
    }
  }

  /** The pause check is what keeps a new run away from the failure before it. */
  lemma StartRefreshInv(cfg: Config, s: Cache, input: Input, now: int)
    requires Inv(cfg, s, now)
    requires s.pending.None? ==> now >= s.nextAttempt
    ensures Inv(cfg, StartRefresh(s, input, now).0, now)
    ensures StartRefresh(s, input, now).1 < |StartRefresh(s, input, now).0.runs|
  {
    var t := StartRefresh(s, input, now).0;
    if s.pending.None? {
      forall r | 0 <= r < |s.runs| ensures s.runs[r].Settled() {
      }
      forall r, q | 0 <= r < |t.runs| && q == r + 1 && q < |t.runs| ensures Spaced(t.runs[r], t.runs[q]) {
        if q < |s.runs| {
          assert Spaced(s.runs[r], s.runs[q]);
        }
      }
      forall r | 0 <= r < |t.runs| ensures Timed(t.runs[r], now) {
        if r < |s.runs| {
          assert Timed(s.runs[r], now);
        }
      }
      forall c | 0 <= c < |t.calls|
        ensures FreshReturn(cfg, t.calls[c].phase, now) && WaitExists(t, t.calls[c].phase)
      {
        assert WaitExists(s, s.calls[c].phase);
      }
    }
  }

  lemma SetCallInv(cfg: Config, s: Cache, call: nat, phase: CallPhase, now: int)
    requires Inv(cfg, s, now) && call < |s.calls|
    requires FreshReturn(cfg, phase, now) && WaitExists(s, phase)
    ensures Inv(cfg, SetCall(s, call, phase), now)
  {
    var t := SetCall(s, call, phase);
    forall c | 0 <= c < |t.calls|
      ensures FreshReturn(cfg, t.calls[c].phase, now) && WaitExists(t, t.calls[c].phase)
    {
      assert WaitExists(s, s.calls[c].phase);
    }
  }

  lemma ColdInv(cfg: Config, s: Cache, call: nat, at: Readings)
    requires InOrder(at) && Inv(cfg, s, at[10]) && call < |s.calls|
    ensures Inv(cfg, Cold(s, call, at), at[10])
  {
    if at[10] < s.nextAttempt && s.pending.None? {
      SetCallInv(cfg, s, call, Threw, at[10]);
    } else {
      StartRefreshInv(cfg, s, s.calls[call].input, at[10]);
      var (t, run) := StartRefresh(s, s.calls[call].input, at[10]);
      SetCallInv(cfg, t, call, AwaitCold(run), at[10]);
    }
  }

  lemma ReturnOrColdInv(cfg: Config, s: Cache, call: nat, at: Readings)
    requires InOrder(at) && Inv(cfg, s, at[10]) && call < |s.calls|
    ensures Inv(cfg, ReturnOrCold(cfg, s, call, at), at[10])
  {
    if Valid(cfg, s.snapshot, at[8], at[9]) {
      SetCallInv(cfg, s, call, Returned(s.snapshot.value, at[9]), at[10]);
    } else {
      ColdInv(cfg, s, call, at);
    }
  }

  lemma ServeInv(cfg: Config, s: Cache, call: nat, at: Readings)
    requires InOrder(at) && Inv(cfg, s, at[0]) && call < |s.calls|
    ensures Inv(cfg, Serve(cfg, s, call, at), at[10])
  {
    InvLater(cfg, s, at[0], at[10]);
    if !Valid(cfg, s.snapshot, at[4], at[5]) {
      ColdInv(cfg, s, call, at);
    } else if at[6] - s.snapshot.value.fetchedAt >= REFRESH_AFTER_MS && at[7] >= s.nextAttempt {
      InvLater(cfg, s, at[0], at[7]);
      StartRefreshInv(cfg, s, s.calls[call].input, at[7]);
      var (t, run) := StartRefresh(s, s.calls[call].input, at[7]);
      InvLater(cfg, t, at[7], at[10]);
      if s.calls[call].input.hasWaitUntil {
        ReturnOrColdInv(cfg, t, call, at);
      } else {
        SetCallInv(cfg, t, call, AwaitStale(run), at[10]);
      }
    } else {
      ReturnOrColdInv(cfg, s, call, at);
    }
  }

  lemma BeginInv(cfg: Config, s: Cache, input: Input, at: Readings)
    requires InOrder(at) && Inv(cfg, s, at[0])
    ensures Inv(cfg, Begin(cfg, s, input, at), at[10])
  {
    var t := s.(calls := s.calls + [Call(input, AwaitStore)]);
    forall c | 0 <= c < |t.calls|
      ensures FreshReturn(cfg, t.calls[c].phase, at[0]) && WaitExists(t, t.calls[c].phase)
    {
      if c < |s.calls| {
        assert WaitExists(s, s.calls[c].phase);
      }
    }
    InvLater(cfg, t, at[0], at[10]);
    if !(!Valid(cfg, s.snapshot, at[2], at[3]) && input.hasStore && s.pending.None?) {
      ServeInv(cfg, t, |s.calls|, at);
    }
  }

  lemma StoreReadInv(cfg: Config, s: Cache, call: nat, entry: Option<Entry>, at: Readings)
    requires InOrder(at) && Inv(cfg, s, at[0]) && call < |s.calls|
    ensures Inv(cfg, StoreRead(cfg, s, call, entry, at), at[10])
  {
    var t := if Adopts(cfg, entry, at) then s.(snapshot := Some(entry.value.snapshot)) else s;
    assert CallsAreSound(cfg, t, at[0]) by {
      forall c | 0 <= c < |t.calls|
        ensures FreshReturn(cfg, t.calls[c].phase, at[0]) && WaitExists(t, t.calls[c].phase)
      {
        assert WaitExists(s, s.calls[c].phase);
      }
    }
    ServeInv(cfg, t, call, at);
  }

  /** Moving the run in progress to another phase, with the pause set as that phase demands. */
  lemma SetRunInv(cfg: Config, s: Cache, run: nat, phase: Phase, snapshot: Option<Snapshot>, nextAttempt: int, now: int)
    requires Inv(cfg, s, now) && run < |s.runs| && !s.runs[run].Settled()
    requires phase.Failed? ==> phase.at == now && nextAttempt == now + FAILED_REFRESH_PAUSE_MS
    requires snapshot.Some? ==> snapshot.value.keyId == cfg.keyId && snapshot.value.issuedAt <= now
    ensures Inv(cfg, SetRun(s, run, phase).(snapshot := snapshot, nextAttempt := nextAttempt), now)
  {
    var t := SetRun(s, run, phase).(snapshot := snapshot, nextAttempt := nextAttempt);
    assert run == |s.runs| - 1;
    forall r | 0 <= r < |t.runs| ensures Timed(t.runs[r], now) {
      assert Timed(s.runs[r], now);
    }
    forall r, q | 0 <= r < |t.runs| && q == r + 1 && q < |t.runs| ensures Spaced(t.runs[r], t.runs[q]) {
      assert Spaced(s.runs[r], s.runs[q]);
    }
    forall c | 0 <= c < |t.calls|
      ensures FreshReturn(cfg, t.calls[c].phase, now) && WaitExists(t, t.calls[c].phase)
    {
      assert WaitExists(s, s.calls[c].phase);
    }
  }

  lemma QuoteArrivesInv(cfg: Config, s: Cache, run: nat, quote: Option<Quote>, signable: bool, at: Readings)
    requires InOrder(at) && Inv(cfg, s, at[0])
    requires run < |s.runs| && s.runs[run].phase.AwaitQuote?
    ensures Inv(cfg, QuoteArrives(cfg, s, run, quote, signable, at), at[10])
  {
    InvLater(cfg, s, at[0], at[10]);
    match Installs(cfg, s.runs[run], quote, signable, at) {
      case None => SetRunInv(cfg, s, run, Throwing, s.snapshot, s.nextAttempt, at[10]);
      case Some(snapshot) =>
        SetRunInv(cfg, s, run, if s.runs[run].input.hasStore then AwaitWrite else Done, Some(snapshot), 0, at[10]);
    }
  }

  lemma ResumeInv(cfg: Config, s: Cache, call: nat, at: Readings)
    requires InOrder(at) && Inv(cfg, s, at[10]) && call < |s.calls|
    requires s.calls[call].phase.AwaitStale? || s.calls[call].phase.AwaitCold?
    requires s.calls[call].phase.run < |s.runs|
    ensures Inv(cfg, Resume(cfg, s, call, at), at[10])
  {
    if s.calls[call].phase.AwaitStale? {
      ReturnOrColdInv(cfg, s, call, at);
    } else if s.runs[s.calls[call].phase.run].phase.Failed? || !Valid(cfg, s.snapshot, at[8], at[9]) {
      SetCallInv(cfg, s, call, Threw, at[10]);
    } else {
      SetCallInv(cfg, s, call, Returned(s.snapshot.value, at[9]), at[10]);
    }
  }

  lemma ClearPendingInv(cfg: Config, s: Cache, run: nat, now: int)
    requires Inv(cfg, s, now) && run < |s.runs| && s.runs[run].Settled()
    ensures Inv(cfg, ClearPending(s, run), now)
  {
    forall c | 0 <= c < |s.calls| ensures WaitExists(s.(pending := None), s.calls[c].phase) {
      assert WaitExists(s, s.calls[c].phase);
    }
  }

  lemma FailRunInv(cfg: Config, s: Cache, run: nat, at: int)
    requires Inv(cfg, s, at) && run < |s.runs| && s.runs[run].phase.Throwing?
    ensures Inv(cfg, FailRun(s, run, at), at)
  {
    SetRunInv(cfg, s, run, Failed(at), s.snapshot, at + FAILED_REFRESH_PAUSE_MS, at);
  }

  lemma ActInv(cfg: Config, s: Cache, a: Action, at: Readings)
    requires Inv(cfg, s, s.now) && Enabled(s, a, at)
    ensures Inv(cfg, Act(cfg, s, a, at), at[10])
  {
    InvLater(cfg, s, s.now, at[0]);
    InvLater(cfg, s, s.now, at[10]);
    match a {
      case CallBegins(input) => BeginInv(cfg, s, input, at);
      case StoreAnswers(call, entry) => StoreReadInv(cfg, s, call, entry, at);
      case AdmissionAnswers(run, admitted) =>
        SetRunInv(cfg, s, run, if admitted then AwaitQuote else Throwing, s.snapshot, s.nextAttempt, at[10]);
      case QuoteAnswers(run, quote, signable) => QuoteArrivesInv(cfg, s, run, quote, signable, at);
      case WriteEnds(run) => SetRunInv(cfg, s, run, Done, s.snapshot, s.nextAttempt, at[10]);
      case FailureHandled(run) =>
        FailRunInv(cfg, s, run, at[0]);
        InvLater(cfg, FailRun(s, run, at[0]), at[0], at[10]);
      case PendingCleared(run) => ClearPendingInv(cfg, s, run, at[10]);
      case CallResumes(call) => ResumeInv(cfg, s, call, at);
    }
  }

  lemma NextInv(cfg: Config, s: Cache, a: Action, at: Readings)
    requires Inv(cfg, s, s.now) && Enabled(s, a, at)
    ensures Inv(cfg, Next(cfg, s, a, at), Next(cfg, s, a, at).now)
  {
    ActInv(cfg, s, a, at);
    var t := Act(cfg, s, a, at);
    forall c | 0 <= c < |t.calls| ensures WaitExists(t.(now := at[10]), t.calls[c].phase) {
      assert WaitExists(t, t.calls[c].phase);
    }
  }

  lemma {:induction false} RunInv(cfg: Config, run: Run, n: nat)
    requires IsRun(cfg, run) && n <= |run.actions|
    ensures Inv(cfg, run.states[n], run.states[n].now)
  {
    if n > 0 {
      RunInv(cfg, run, n - 1);
      assert Happens(cfg, run, n - 1);
      NextInv(cfg, run.states[n - 1], run.actions[n - 1], run.clocks[n - 1]);
    }
  }

  // ----- promises, for every interleaving -----

  /** At most one refresh run is in progress, and `pending` names it. */
  lemma OneRefreshAtATime(cfg: Config, run: Run, n: nat, r: nat, q: nat)
    requires IsRun(cfg, run) && n <= |run.actions|
    requires r < |run.states[n].runs| && q < |run.states[n].runs|
    requires !run.states[n].runs[r].Settled()
    ensures run.states[n].pending == Some(r)
    ensures !run.states[n].runs[q].Settled() ==> q == r
  {
    RunInv(cfg, run, n);
  }

  /** After a failed run the next one starts no sooner than 5000 ms later, whoever asks for it. */
  lemma FailuresPause(cfg: Config, run: Run, n: nat, r: nat)
    requires IsRun(cfg, run) && n <= |run.actions| && r + 1 < |run.states[n].runs|
    requires run.states[n].runs[r].phase.Failed?
    ensures run.states[n].runs[r + 1].started >= run.states[n].runs[r].phase.at + 5_000
  {
    RunInv(cfg, run, n);
    assert Spaced(run.states[n].runs[r], run.states[n].runs[r + 1]);
  }

  /** k failures in a row need at least (k - 1) pauses from the first failure to the k-th start. */
  lemma {:induction false} FailuresSpread(cfg: Config, run: Run, n: nat, first: nat, k: nat)
    requires IsRun(cfg, run) && n <= |run.actions| && k >= 2 && first + k <= |run.states[n].runs|
    requires forall r :: first <= r < first + k ==> run.states[n].runs[r].phase.Failed?
    ensures run.states[n].runs[first + k - 1].started >=
            run.states[n].runs[first].phase.at + (k - 1) * 5_000
  {
    var runs := run.states[n].runs;
    FailuresPause(cfg, run, n, first + k - 2);
    if k > 2 {
      FailuresSpread(cfg, run, n, first, k - 1);
      RunInv(cfg, run, n);
      assert Timed(runs[first + k - 2], run.states[n].now);
    }
  }

  /** A call only ever returns a snapshot under our key that has not expired at its last clock reading. */
  lemma ReturnsAreUnexpired(cfg: Config, run: Run, n: nat, c: nat)
    requires IsRun(cfg, run) && n <= |run.actions| && c < |run.states[n].calls|
    requires run.states[n].calls[c].phase.Returned?
    ensures var returned := run.states[n].calls[c].phase;
            && returned.snapshot.keyId == cfg.keyId
            && returned.snapshot.issuedAt <= returned.at < returned.snapshot.expiresAt
            && returned.at <= run.states[n].now
  {
    RunInv(cfg, run, n);
    assert FreshReturn(cfg, run.states[n].calls[c].phase, run.states[n].now);
  }

  // ----- who may change the held snapshot -----

  lemma ServeKeepsSnapshot(cfg: Config, s: Cache, call: nat, at: Readings)
    requires call < |s.calls| && |at| == READS
    ensures Serve(cfg, s, call, at).snapshot == s.snapshot
  {
  }

  /** Run r installs its quote in this step. */
  ghost predicate InstallsIn(cfg: Config, s: Cache, a: Action, at: Readings, r: nat)
  {
    && a.QuoteAnswers? && a.run == r && r < |s.runs| && |at| == READS
    && Installs(cfg, s.runs[r], a.quote, a.signable, at).Some?
  }

  /** A call adopts the entry its store read produced. */
  ghost predicate AdoptsIn(cfg: Config, a: Action, at: Readings)
  {
    a.StoreAnswers? && |at| == READS && Adopts(cfg, a.entry, at)
  }

  /** What the step leaves held: an installed quote, an adopted entry, or the same as before. */
  lemma SnapshotAfter(cfg: Config, s: Cache, a: Action, at: Readings)
    requires Enabled(s, a, at)
    ensures Next(cfg, s, a, at).snapshot ==
            if AdoptsIn(cfg, a, at) then Some(a.entry.value.snapshot)
            else if a.QuoteAnswers? && InstallsIn(cfg, s, a, at, a.run)
            then Installs(cfg, s.runs[a.run], a.quote, a.signable, at)
            else s.snapshot
  {
    match a {
      case CallBegins(input) =>
        ServeKeepsSnapshot(cfg, s.(calls := s.calls + [Call(input, AwaitStore)]), |s.calls|, at);
      case StoreAnswers(call, entry) =>
        var t := if Adopts(cfg, entry, at) then s.(snapshot := Some(entry.value.snapshot)) else s;
        ServeKeepsSnapshot(cfg, t, call, at);
      case _ =>
    }
  }

  /** Runs are only added to; a run that installed stays successful, and its captured snapshot is fixed. */
  ghost predicate RunsEvolve(s: Cache, t: Cache)
  {
    && |s.runs| <= |t.runs|
    && forall r :: 0 <= r < |s.runs| ==>
         && t.runs[r].previous == s.runs[r].previous && t.runs[r].input == s.runs[r].input
         && (s.runs[r].Installed() ==> t.runs[r].Installed())
  }

  lemma ServeEvolves(cfg: Config, s: Cache, call: nat, at: Readings)
    requires call < |s.calls| && |at| == READS
    ensures RunsEvolve(s, Serve(cfg, s, call, at))
  {
  }

  lemma NextEvolves(cfg: Config, s: Cache, a: Action, at: Readings)
    requires Enabled(s, a, at)
    ensures RunsEvolve(s, Next(cfg, s, a, at))
    ensures forall r: nat :: InstallsIn(cfg, s, a, at, r) ==> Next(cfg, s, a, at).runs[r].Installed()
  {
    match a {
      case CallBegins(input) =>
        ServeEvolves(cfg, s.(calls := s.calls + [Call(input, AwaitStore)]), |s.calls|, at);
      case StoreAnswers(call, entry) =>
        ServeEvolves(cfg, if Adopts(cfg, entry, at) then s.(snapshot := Some(entry.value.snapshot)) else s, call, at);
      case _ =>
    }
  }

  lemma {:induction false} InstalledStays(cfg: Config, run: Run, m: nat, n: nat, r: nat)
    requires IsRun(cfg, run) && m <= n <= |run.actions|
    requires r < |run.states[m].runs| && run.states[m].runs[r].Installed()
    ensures r < |run.states[n].runs| && run.states[n].runs[r].Installed()
  {
    if m < n {
      InstalledStays(cfg, run, m, n - 1, r);
      assert Happens(cfg, run, n - 1);
      NextEvolves(cfg, run.states[n - 1], run.actions[n - 1], run.clocks[n - 1]);
    }
  }

  /** The action is a stretch of refresh run r's own code. */
  predicate OfRun(a: Action, r: nat)
  {
    (a.AdmissionAnswers? || a.QuoteAnswers? || a.WriteEnds? || a.FailureHandled? || a.PendingCleared?) && a.run == r
  }

  /** A refresh that failed never touched the held snapshot, at any step of its life. */
  lemma FailedRunsChangeNothing(cfg: Config, run: Run, m: nat, n: nat, r: nat)
    requires IsRun(cfg, run) && m < n <= |run.actions|
    requires r < |run.states[n].runs| && run.states[n].runs[r].phase.Failed?
    requires OfRun(run.actions[m], r)
    ensures run.states[m + 1].snapshot == run.states[m].snapshot
  {
    assert Happens(cfg, run, m);
    var s, a, at := run.states[m], run.actions[m], run.clocks[m];
    SnapshotAfter(cfg, s, a, at);
    NextEvolves(cfg, s, a, at);
    if InstallsIn(cfg, s, a, at, r) {
      InstalledStays(cfg, run, m + 1, n, r);
    }
  }

  /** An installed quote keeps every currency of the snapshot its run captured, unless that has expired. */
  lemma InstallKeepsCapturedCoverage(cfg: Config, run: Run, n: nat, r: nat)
    requires IsRun(cfg, run) && n < |run.actions|
    requires InstallsIn(cfg, run.states[n], run.actions[n], run.clocks[n], r)
    ensures var previous, held := run.states[n].runs[r].previous, run.states[n + 1].snapshot;
            && held.Some?
            && (Valid(cfg, previous, run.clocks[n][2], run.clocks[n][3]) ==>
                  previous.value.rates.Keys <= held.value.rates.Keys)
  {
    assert Happens(cfg, run, n);
    SnapshotAfter(cfg, run.states[n], run.actions[n], run.clocks[n]);
  }

  /** While a run has neither installed nor failed, it still captures what is held, as nobody adopts entries. */
  ghost predicate CaptureCurrent(s: Cache)
  {
    forall r :: 0 <= r < |s.runs| && (s.runs[r].phase.AwaitAdmission? || s.runs[r].phase.AwaitQuote?) ==>
      s.runs[r].previous == s.snapshot
  }

  ghost predicate NoStore(run: Run)
  {
    forall n :: 0 <= n < |run.actions| && run.actions[n].CallBegins? ==> !run.actions[n].input.hasStore
  }

  /** Nobody is waiting for a second-level store. */
  ghost predicate NobodyReads(s: Cache)
  {
    forall c :: 0 <= c < |s.calls| ==> !s.calls[c].phase.AwaitStore?
  }

  lemma ServeCaptures(cfg: Config, s: Cache, call: nat, at: Readings)
    requires call < |s.calls| && |at| == READS
    requires CaptureCurrent(s)
    requires forall c :: 0 <= c < |s.calls| && c != call ==> !s.calls[c].phase.AwaitStore?
    ensures CaptureCurrent(Serve(cfg, s, call, at)) && NobodyReads(Serve(cfg, s, call, at))
  {
  }

  lemma NextCaptures(cfg: Config, s: Cache, a: Action, at: Readings)
    requires Inv(cfg, s, s.now) && Enabled(s, a, at)
    requires CaptureCurrent(s) && NobodyReads(s)
    requires a.CallBegins? ==> !a.input.hasStore
    ensures CaptureCurrent(Next(cfg, s, a, at)) && NobodyReads(Next(cfg, s, a, at))
  {
    if a.CallBegins? {
      ServeCaptures(cfg, s.(calls := s.calls + [Call(a.input, AwaitStore)]), |s.calls|, at);
    }
  }

  lemma {:induction false} RunCaptures(cfg: Config, run: Run, n: nat)
    requires IsRun(cfg, run) && NoStore(run) && n <= |run.actions|
    ensures CaptureCurrent(run.states[n]) && NobodyReads(run.states[n])
  {
    if n > 0 {
      RunCaptures(cfg, run, n - 1);
      RunInv(cfg, run, n - 1);
      assert Happens(cfg, run, n - 1);
      NextCaptures(cfg, run.states[n - 1], run.actions[n - 1], run.clocks[n - 1]);
    }
  }

  /** The held snapshot of step n loses a currency at step n + 1 although it has not expired. */
  ghost predicate LosesUnexpired(run: Run, n: nat)
    requires n < |run.actions| < |run.states|
  {
    var held, after := run.states[n].snapshot, run.states[n + 1].snapshot;
    && held.Some? && run.states[n + 1].now < held.value.expiresAt
    && (after.None? || !(held.value.rates.Keys <= after.value.rates.Keys))
  }

  /** Without a second-level store no interleaving ever loses coverage that is still good. */
  lemma CoverageNeverShrinksWithoutStore(cfg: Config, run: Run, n: nat)
    requires IsRun(cfg, run) && NoStore(run) && n < |run.actions|
    ensures !LosesUnexpired(run, n)
  {
    var s, a, at := run.states[n], run.actions[n], run.clocks[n];
    assert Happens(cfg, run, n);
    RunInv(cfg, run, n);
    RunCaptures(cfg, run, n);
    SnapshotAfter(cfg, s, a, at);
  }

  /** The same over any stretch of time: as long as what is held has not expired, coverage only grows. */
  lemma {:induction false} CoverageGrowsWithoutStore(cfg: Config, run: Run, m: nat, n: nat)
    requires IsRun(cfg, run) && NoStore(run) && m <= n <= |run.actions|
    requires run.states[m].snapshot.Some?
    requires forall k :: m <= k < n && run.states[k].snapshot.Some? ==>
               run.states[k + 1].now < run.states[k].snapshot.value.expiresAt
    ensures run.states[n].snapshot.Some?
    ensures run.states[m].snapshot.value.rates.Keys <= run.states[n].snapshot.value.rates.Keys
  {
    if m < n {
      CoverageGrowsWithoutStore(cfg, run, m, n - 1);
      CoverageNeverShrinksWithoutStore(cfg, run, n - 1);
    }
  }
}
