/** The cache's closure as a class: each method is one stretch of code between two awaits. */
module PricingCacheClass {
  import opened Wrappers
  import opened PricingCache

  class PricingAuthorityCache {
    const cfg: Config
    var snapshot: Option<Snapshot>
    var pending: Option<nat>
    var nextAttemptMs: int
    /** The suspended frames of refresh runs and of calls, in order of creation. */
    var runs: seq<Refresh>
    var calls: seq<Call>
    var clock: int

    function State(): Cache
      reads this
    {
      Cache(clock, snapshot, pending, nextAttemptMs, runs, calls)
    }

    constructor (cfg: Config)
      ensures this.cfg == cfg && State() == EMPTY
    {
      this.cfg := cfg;
      snapshot, pending, nextAttemptMs := None, None, 0;
      runs, calls, clock := [], [], 0;
    }

    method BeginRefresh(input: Input, at: int) returns (run: nat)
      modifies this`runs, this`pending
      ensures (State(), run) == StartRefresh(old(State()), input, at)
    {
      if pending.Some? { return pending.value; }
      run := |runs|;
      runs := runs + [Refresh(input, at, snapshot, if input.hasAdmission then AwaitAdmission else AwaitQuote)];
      pending := Some(run);
    }

    method Suspend(call: nat, phase: CallPhase)
      requires call < |calls|
      modifies this`calls
      ensures State() == SetCall(old(State()), call, phase)
    {
      calls := calls[call := calls[call].(phase := phase)];
    }

    /** From a settled store read to a return, a throw or the next await. */
    method ServeCall(call: nat, at: Readings)
      requires call < |calls| && InOrder(at)
      modifies this`runs, this`pending, this`calls
      ensures State() == Serve(cfg, old(State()), call, at)
    {
      if Valid(cfg, snapshot, at[4], at[5]) {
        if at[6] - snapshot.value.fetchedAt >= REFRESH_AFTER_MS && at[7] >= nextAttemptMs {
          var run := BeginRefresh(calls[call].input, at[7]);
          if !calls[call].input.hasWaitUntil {
            Suspend(call, AwaitStale(run));
            return;
          }
        }
        if Valid(cfg, snapshot, at[8], at[9]) {
          Suspend(call, Returned(snapshot.value, at[9]));
          return;
        }
      }
      AwaitRefresh(call, at);
    }

    method AwaitRefresh(call: nat, at: Readings)
      requires call < |calls| && InOrder(at)
      modifies this`runs, this`pending, this`calls
      ensures State() == Cold(old(State()), call, at)
    {
      if at[10] < nextAttemptMs && pending.None? {
        Suspend(call, Threw);
        return;
      }
      var run := BeginRefresh(calls[call].input, at[10]);
      Suspend(call, AwaitCold(run));
    }

    method OnCall(input: Input, at: Readings)
      requires Enabled(State(), CallBegins(input), at)
      modifies this
      ensures State() == Next(cfg, old(State()), CallBegins(input), at)
    {
      var call := |calls|;
      calls := calls + [Call(input, AwaitStore)];
      if !(!Valid(cfg, snapshot, at[2], at[3]) && input.hasStore && pending.None?) {
        ServeCall(call, at);
      }
      clock := at[READS - 1];
    }

    method OnStoreAnswer(call: nat, entry: Option<Entry>, at: Readings)
      requires Enabled(State(), StoreAnswers(call, entry), at)
      modifies this
      ensures State() == Next(cfg, old(State()), StoreAnswers(call, entry), at)
    {
      if Adopts(cfg, entry, at) { snapshot := Some(entry.value.snapshot); }
      ServeCall(call, at);
      clock := at[READS - 1];
    }

    /** Builds the kept rates currency by currency, in any order of the supported list. */
    method UsableRates(rates: map<string, real>) returns (kept: map<string, real>)
      ensures kept == Usable(cfg, rates)
    {
      kept := map[];
      var rest := cfg.currencies;
      while rest != {}
        invariant rest <= cfg.currencies
        invariant kept == map c | c in rates && c in cfg.currencies && c !in rest && rates[c] > 0.0 :: rates[c]
        decreases rest
      {
        var currency :| currency in rest;
        if currency in rates && rates[currency] > 0.0 {
          kept := kept[currency := rates[currency]];
        }
        rest := rest - {currency};
      }
    }

    method OnQuote(run: nat, quote: Option<Quote>, signable: bool, at: Readings)
      requires Enabled(State(), QuoteAnswers(run, quote, signable), at)
      modifies this
      ensures State() == Next(cfg, old(State()), QuoteAnswers(run, quote, signable), at)
    {
      clock := at[READS - 1];
      if quote.None? {
        runs := runs[run := runs[run].(phase := Throwing)];
        return;
      }
      var rates := UsableRates(quote.value.rates);
      var fetchedAt := quote.value.fetchedAt;
      if fetchedAt > at[0] || at[1] >= fetchedAt + MAX_AGE_MS ||
         LosesCoverage(cfg, runs[run].previous, rates, at[2], at[3]) ||
         !signable || fetchedAt > at[4] || at[4] >= fetchedAt + MAX_AGE_MS
      {
        runs := runs[run := runs[run].(phase := Throwing)];
        return;
      }
      snapshot := Some(Snapshot(cfg.keyId, at[4], fetchedAt + MAX_AGE_MS, fetchedAt, rates));
      nextAttemptMs := 0;
      runs := runs[run := runs[run].(phase := if runs[run].input.hasStore then AwaitWrite else Done)];
    }

    method OnFailure(run: nat, at: Readings)
      requires Enabled(State(), FailureHandled(run), at)
      modifies this
      ensures State() == Next(cfg, old(State()), FailureHandled(run), at)
    {
      nextAttemptMs := at[0] + FAILED_REFRESH_PAUSE_MS;
      runs := runs[run := runs[run].(phase := Failed(at[0]))];
      clock := at[READS - 1];
    }

    method OnSettled(run: nat, at: Readings)
      requires Enabled(State(), PendingCleared(run), at)
      modifies this
      ensures State() == Next(cfg, old(State()), PendingCleared(run), at)
    {
      if pending == Some(run) { pending := None; }
      clock := at[READS - 1];
    }

    method OnResume(call: nat, at: Readings)
      requires Enabled(State(), CallResumes(call), at)
      modifies this
      ensures State() == Next(cfg, old(State()), CallResumes(call), at)
    {
      var usable := Valid(cfg, snapshot, at[8], at[9]);
      if calls[call].phase.AwaitStale? {
        if usable {
          Suspend(call, Returned(snapshot.value, at[9]));
        } else {
          AwaitRefresh(call, at);
        }
      } else if runs[calls[call].phase.run].phase.Failed? || !usable {
        Suspend(call, Threw);
      } else {
        Suspend(call, Returned(snapshot.value, at[9]));
      }
      clock := at[READS - 1];
    }
  }
}
