/** The client-error rate limiter: de-duplication by signature inside a restarting window. */
module RateLimiter {
  import opened Wrappers

  datatype Limits = Limits(dedupeMs: nat, maxEvents: nat, windowMs: nat)

  datatype State = State(latest: map<string, int>, startedAt: Option<int>, count: nat)

  datatype Call = Call(signature: string, now: int)

  const INITIAL := State(map[], None, 0)

  predicate IsRepeat(lim: Limits, latest: map<string, int>, c: Call)
  {
    c.signature in latest && c.now - latest[c.signature] < lim.dedupeMs
  }

  predicate OpensWindow(lim: Limits, s: State, now: int)
  {
    s.startedAt.None? || now - s.startedAt.value >= lim.windowMs
  }

  function Windowed(lim: Limits, s: State, now: int): State
  {
    if OpensWindow(lim, s, now) then s.(startedAt := Some(now), count := 0) else s
  }

  /** Is this call recorded? */
  predicate Accepts(lim: Limits, s: State, c: Call)
  {
    !IsRepeat(lim, s.latest, c) && Windowed(lim, s, c.now).count < lim.maxEvents
  }

  function Pruned(lim: Limits, latest: map<string, int>, now: int): map<string, int>
  {
    map k | k in latest && now - latest[k] < lim.dedupeMs :: latest[k]
  }

  function Step(lim: Limits, s: State, c: Call): State
  {
    if IsRepeat(lim, s.latest, c) then s
    else
      var w := Windowed(lim, s, c.now);
      if w.count >= lim.maxEvents then w
      else State(Pruned(lim, s.latest, c.now)[c.signature := c.now], w.startedAt, w.count + 1)
  }

  class ClientErrorRateLimiter {
    const lim: Limits
    var latestBySignature: map<string, int>
    var windowStartedAt: Option<int>
    var windowEventCount: nat

    function Value(): State
      reads this
    {
      State(latestBySignature, windowStartedAt, windowEventCount)
    }

    constructor (lim: Limits)
      ensures this.lim == lim && Value() == INITIAL
    {
      this.lim := lim;
      latestBySignature, windowStartedAt, windowEventCount := map[], None, 0;
    }

    method ShouldRecord(signature: string, now: int) returns (ok: bool)
      modifies this
      ensures Value() == Step(lim, old(Value()), Call(signature, now))
      ensures ok == Accepts(lim, old(Value()), Call(signature, now))
    {
      if signature in latestBySignature && now - latestBySignature[signature] < lim.dedupeMs {
        return false;
      }
      if windowStartedAt.None? || now - windowStartedAt.value >= lim.windowMs {
        windowStartedAt := Some(now);
        windowEventCount := 0;
      }
      if windowEventCount >= lim.maxEvents {
        return false;
      }
      ghost var before := latestBySignature;
      var keys := latestBySignature.Keys;
      while keys != {}
        modifies this`latestBySignature
        invariant keys <= latestBySignature.Keys <= before.Keys
        invariant forall k :: k in latestBySignature ==> latestBySignature[k] == before[k]
        invariant forall k :: k in before && k !in keys ==>
                    (k in latestBySignature <==> now - before[k] < lim.dedupeMs)
        decreases |keys|
      {
        var key :| key in keys;
        keys := keys - {key};
        if now - latestBySignature[key] >= lim.dedupeMs {
          latestBySignature := latestBySignature - {key};
        }
      }
      assert latestBySignature == Pruned(lim, before, now);
      latestBySignature := latestBySignature[signature := now];
      windowEventCount := windowEventCount + 1;
      return true;
    }
  }

  // ----- runs -----

  ghost predicate Monotone(calls: seq<Call>)
  {
    forall i, j :: 0 <= i < j < |calls| ==> calls[i].now <= calls[j].now
  }

  /** The limiter's state after the first n calls. */
  function After(lim: Limits, calls: seq<Call>, n: nat): State
    requires n <= |calls|
  {
    if n == 0 then INITIAL else Step(lim, After(lim, calls, n - 1), calls[n - 1])
  }

  predicate Accepted(lim: Limits, calls: seq<Call>, i: nat)
    requires i < |calls|
  {
    Accepts(lim, After(lim, calls, i), calls[i])
  }

  /** How many of the calls lo, ..., hi - 1 are recorded. */
  function CountAccepted(lim: Limits, calls: seq<Call>, lo: nat, hi: nat): nat
    requires lo <= hi <= |calls|
  {
    if lo == hi then 0
    else CountAccepted(lim, calls, lo, hi - 1) + if Accepted(lim, calls, hi - 1) then 1 else 0
  }

  // ----- the rate -----

  /** How many windows the first n calls opened. */
  function Windows(lim: Limits, calls: seq<Call>, n: nat): nat
    requires n <= |calls|
  {
    if n == 0 then 0
    else
      var s := After(lim, calls, n - 1);
      Windows(lim, calls, n - 1) +
      if !IsRepeat(lim, s.latest, calls[n - 1]) && OpensWindow(lim, s, calls[n - 1].now) then 1 else 0
  }

  lemma {:induction false} WindowsBound(lim: Limits, calls: seq<Call>, n: nat)
    requires n <= |calls| && Monotone(calls)
    ensures After(lim, calls, n).count <= lim.maxEvents
    ensures After(lim, calls, n).startedAt.Some? ==>
              n > 0 && After(lim, calls, n).startedAt.value <= calls[n - 1].now
    ensures After(lim, calls, n).startedAt.None? ==> After(lim, calls, n) == INITIAL
    ensures Windows(lim, calls, n) == 0 <==> n == 0
    ensures n > 0 ==> After(lim, calls, n).startedAt.Some?
  {
    if n > 0 {
      WindowsBound(lim, calls, n - 1);
    }
  }

  /** One call either stays in its window or opens one, at least windowMs after the last. */
  lemma StepWindows(lim: Limits, calls: seq<Call>, n: nat)
    requires n < |calls| && Monotone(calls)
    ensures var s, t := After(lim, calls, n), After(lim, calls, n + 1);
            var one := if Accepted(lim, calls, n) then 1 else 0;
            || (Windows(lim, calls, n + 1) == Windows(lim, calls, n) && t.startedAt == s.startedAt &&
                t.count == s.count + one)
            || (Windows(lim, calls, n + 1) == Windows(lim, calls, n) + 1 && t.startedAt == Some(calls[n].now) &&
                t.count == one && (s.startedAt.Some? ==> calls[n].now >= s.startedAt.value + lim.windowMs))
  {
  }

  /** `times * each`, as a sum. */
  function Total(times: nat, each: nat): nat
  {
    if times == 0 then 0 else Total(times - 1, each) + each
  }

  lemma {:induction false} TotalIsProduct(times: nat, each: nat)
    ensures Total(times, each) == times * each
  {
    if times > 0 {
      TotalIsProduct(times - 1, each);
      assert (times - 1) * each + each == times * each;
    }
  }

  lemma {:induction false} TotalGrows(a: nat, b: nat, each: nat)
    requires a <= b
    ensures Total(a, each) <= Total(b, each)
  {
    if a < b {
      TotalGrows(a, b - 1, each);
    }
  }

  /** Windows opened after call lo and before call hi. */
  function Opened(lim: Limits, calls: seq<Call>, lo: nat, hi: nat): int
    requires lo < hi <= |calls|
  {
    Windows(lim, calls, hi) - Windows(lim, calls, lo + 1)
  }

  lemma HoldStep(cap: nat, was: nat, more: nat, before: nat, after: nat, counted: nat, one: nat)
    requires counted <= Total(was, cap) + before && before <= cap
    requires (more == was && after == before + one) || (more == was + 1 && after == one)
    ensures counted + one <= Total(more, cap) + after
  {
  }

  /** Every window opened since call lo holds at most maxEvents of the recorded calls. */
  lemma {:induction false} WindowsHold(lim: Limits, calls: seq<Call>, lo: nat, hi: nat)
    requires lo < hi <= |calls| && Monotone(calls)
    ensures Opened(lim, calls, lo, hi) >= 0
    ensures CountAccepted(lim, calls, lo, hi) <=
            Total(Opened(lim, calls, lo, hi), lim.maxEvents) + After(lim, calls, hi).count
  {
    StepWindows(lim, calls, hi - 1);
    WindowsBound(lim, calls, hi - 1);
    var one := if Accepted(lim, calls, hi - 1) then 1 else 0;
    assert CountAccepted(lim, calls, lo, hi) == CountAccepted(lim, calls, lo, hi - 1) + one;
    if hi == lo + 1 {
      assert CountAccepted(lim, calls, lo, lo) == 0;
    } else {
      WindowsHold(lim, calls, lo, hi - 1);
      HoldStep(lim.maxEvents, Opened(lim, calls, lo, hi - 1), Opened(lim, calls, lo, hi),
               After(lim, calls, hi - 1).count, After(lim, calls, hi).count,
               CountAccepted(lim, calls, lo, hi - 1), one);
    }
  }

  /** Windows opened since call lo start at least windowMs apart. */
  lemma {:induction false} WindowsApart(lim: Limits, calls: seq<Call>, lo: nat, hi: nat)
    requires lo < hi <= |calls| && Monotone(calls)
    ensures After(lim, calls, hi).startedAt.Some? && After(lim, calls, lo + 1).startedAt.Some?
    ensures Opened(lim, calls, lo, hi) >= 0
    ensures After(lim, calls, hi).startedAt.value >=
            After(lim, calls, lo + 1).startedAt.value + Total(Opened(lim, calls, lo, hi), lim.windowMs)
  {
    WindowsBound(lim, calls, hi);
    WindowsBound(lim, calls, lo + 1);
    if hi > lo + 1 {
      StepWindows(lim, calls, hi - 1);
      WindowsApart(lim, calls, lo, hi - 1);
    }
  }

  /** A recorded call falls inside its window. */
  lemma AcceptedInWindow(lim: Limits, calls: seq<Call>, i: nat)
    requires i < |calls| && Monotone(calls) && lim.windowMs > 0 && Accepted(lim, calls, i)
    ensures After(lim, calls, i + 1).startedAt.Some?
    ensures calls[i].now < After(lim, calls, i + 1).startedAt.value + lim.windowMs
  {
  }

  lemma {:induction false} CountFromNext(lim: Limits, calls: seq<Call>, lo: nat, hi: nat)
    requires lo < hi <= |calls| && !Accepted(lim, calls, lo)
    ensures CountAccepted(lim, calls, lo, hi) == CountAccepted(lim, calls, lo + 1, hi)
  {
    if hi > lo + 1 {
      CountFromNext(lim, calls, lo, hi - 1);
    } else {
      assert CountAccepted(lim, calls, lo, lo) == 0;
    }
  }

  /** Calls that span at most k windows' length, both ends included, record at most (k + 1) * maxEvents events. */
  lemma {:induction false} RateIsLimited(lim: Limits, calls: seq<Call>, lo: nat, hi: nat, k: nat)
    requires lo < hi <= |calls| && Monotone(calls) && lim.windowMs > 0
    requires calls[hi - 1].now - calls[lo].now <= k * lim.windowMs
    ensures CountAccepted(lim, calls, lo, hi) <= (k + 1) * lim.maxEvents
    decreases hi - lo
  {
    if Accepted(lim, calls, lo) {
      AcceptedSpanIsLimited(lim, calls, lo, hi, k);
    } else {
      CountFromNext(lim, calls, lo, hi);
      if lo + 1 < hi {
        RateIsLimited(lim, calls, lo + 1, hi, k);
      } else {
        assert CountAccepted(lim, calls, hi, hi) == 0;
      }
    }
  }

  lemma AcceptedSpanIsLimited(lim: Limits, calls: seq<Call>, lo: nat, hi: nat, k: nat)
    requires lo < hi <= |calls| && Monotone(calls) && lim.windowMs > 0 && Accepted(lim, calls, lo)
    requires calls[hi - 1].now - calls[lo].now <= k * lim.windowMs
    ensures CountAccepted(lim, calls, lo, hi) <= (k + 1) * lim.maxEvents
  {
    WindowsHold(lim, calls, lo, hi);
    WindowsApart(lim, calls, lo, hi);
    WindowsBound(lim, calls, hi);
    AcceptedInWindow(lim, calls, lo);
    TotalIsProduct(k, lim.windowMs);
    TotalIsProduct(k + 1, lim.maxEvents);
    if Opened(lim, calls, lo, hi) > k {
      TotalGrows(k + 1, Opened(lim, calls, lo, hi), lim.windowMs);
      assert false;
    }
    TotalGrows(Opened(lim, calls, lo, hi), k, lim.maxEvents);
  }

  // ----- repeats -----

  lemma {:induction false} AcceptedRemembered(lim: Limits, calls: seq<Call>, i: nat, n: nat)
    requires i < n <= |calls| && Monotone(calls) && Accepted(lim, calls, i)
    ensures var latest := After(lim, calls, n).latest;
            || (calls[i].signature in latest && latest[calls[i].signature] >= calls[i].now)
            || calls[n - 1].now - calls[i].now >= lim.dedupeMs
  {
    if n > i + 1 {
      AcceptedRemembered(lim, calls, i, n - 1);
    }
  }

  /** Two recorded events with one signature are at least dedupeMs apart. */
  lemma RepeatsAreApart(lim: Limits, calls: seq<Call>, i: nat, j: nat)
    requires i < j < |calls| && Monotone(calls)
    requires Accepted(lim, calls, i) && Accepted(lim, calls, j) && calls[i].signature == calls[j].signature
    ensures calls[j].now - calls[i].now >= lim.dedupeMs
  {
    AcceptedRemembered(lim, calls, i, j);
  }

  // ----- exactly which calls are recorded -----

  /** No call with the signature of call n was recorded less than dedupeMs before it. */
  ghost predicate IsFresh(lim: Limits, calls: seq<Call>, n: nat)
    requires n < |calls|
  {
    forall i :: 0 <= i < n && calls[i].signature == calls[n].signature && Accepted(lim, calls, i) ==>
      calls[n].now - calls[i].now >= lim.dedupeMs
  }

  /**
    The call that opened the window in force after the first n calls: the first call, and then each
    fresh call that comes windowMs or more after the opener before it.
   */
  ghost function Opener(lim: Limits, calls: seq<Call>, n: nat): (w: nat)
    requires 0 < n <= |calls|
    ensures w < n
  {
    if n == 1 then 0
    else
      var w := Opener(lim, calls, n - 1);
      if IsFresh(lim, calls, n - 1) && calls[n - 1].now - calls[w].now >= lim.windowMs then n - 1 else w
  }

  lemma {:induction false} LatestWasRecorded(lim: Limits, calls: seq<Call>, n: nat, signature: string) returns (i: nat)
    requires n <= |calls| && signature in After(lim, calls, n).latest
    ensures i < n && Accepted(lim, calls, i)
    ensures calls[i] == Call(signature, After(lim, calls, n).latest[signature])
  {
    if Accepted(lim, calls, n - 1) && calls[n - 1].signature == signature {
      i := n - 1;
    } else {
      i := LatestWasRecorded(lim, calls, n - 1, signature);
    }
  }

  lemma RepeatsAreNotFresh(lim: Limits, calls: seq<Call>, n: nat)
    requires n < |calls| && Monotone(calls)
    ensures IsRepeat(lim, After(lim, calls, n).latest, calls[n]) <==> !IsFresh(lim, calls, n)
  {
    if IsRepeat(lim, After(lim, calls, n).latest, calls[n]) {
      var i := LatestWasRecorded(lim, calls, n, calls[n].signature);
    }
    forall i | 0 <= i < n && calls[i].signature == calls[n].signature && Accepted(lim, calls, i)
      ensures calls[n].now - calls[i].now >= lim.dedupeMs || IsRepeat(lim, After(lim, calls, n).latest, calls[n])
    {
      AcceptedRemembered(lim, calls, i, n);
    }
  }

  lemma {:induction false} WindowIsOpeners(lim: Limits, calls: seq<Call>, n: nat)
    requires 0 < n <= |calls| && Monotone(calls)
    ensures var w := Opener(lim, calls, n);
            && After(lim, calls, n).startedAt == Some(calls[w].now)
            && After(lim, calls, n).count == CountAccepted(lim, calls, w, n)
  {
    RepeatsAreNotFresh(lim, calls, n - 1);
    var w := Opener(lim, calls, n);
    assert CountAccepted(lim, calls, n - 1, n - 1) == 0;
    if n > 1 {
      WindowIsOpeners(lim, calls, n - 1);
    }
  }

  /**
    A call is recorded exactly when none of its signature was recorded less than dedupeMs before it,
    and fewer than maxEvents calls have been recorded since the one that opened its window.
   */
  lemma RecordedExactly(lim: Limits, calls: seq<Call>, n: nat)
    requires n < |calls| && Monotone(calls)
    ensures Accepted(lim, calls, n) <==>
              IsFresh(lim, calls, n) && CountAccepted(lim, calls, Opener(lim, calls, n + 1), n) < lim.maxEvents
  {
    RepeatsAreNotFresh(lim, calls, n);
    assert CountAccepted(lim, calls, n, n) == 0;
    if n > 0 {
      WindowIsOpeners(lim, calls, n);
    }
  }

  // ----- pruning -----

  /** The same limiter without the deletion loop. */
  function KeepingStep(lim: Limits, s: State, c: Call): State
  {
    if IsRepeat(lim, s.latest, c) then s
    else
      var w := Windowed(lim, s, c.now);
      if w.count >= lim.maxEvents then w
      else State(s.latest[c.signature := c.now], w.startedAt, w.count + 1)
  }

  function KeepingAfter(lim: Limits, calls: seq<Call>, n: nat): State
    requires n <= |calls|
  {
    if n == 0 then INITIAL else KeepingStep(lim, KeepingAfter(lim, calls, n - 1), calls[n - 1])
  }

  /** The pruned table is the full one but for entries that are already dedupeMs old. */
  ghost predicate Prunes(lim: Limits, s: State, full: State, now: int)
  {
    && s.startedAt == full.startedAt && s.count == full.count
    && (forall k :: k in s.latest ==> k in full.latest && s.latest[k] == full.latest[k])
    && (forall k :: k in full.latest && k !in s.latest ==> now - full.latest[k] >= lim.dedupeMs)
  }

  lemma {:induction false} PruningSimulates(lim: Limits, calls: seq<Call>, n: nat, now: int)
    requires n <= |calls| && Monotone(calls) && (n > 0 ==> calls[n - 1].now <= now)
    ensures Prunes(lim, After(lim, calls, n), KeepingAfter(lim, calls, n), now)
  {
    if n > 0 {
      PruningSimulates(lim, calls, n - 1, calls[n - 1].now);
    }
  }

  /** Pruning never changes a decision. */
  lemma PruningIsInvisible(lim: Limits, calls: seq<Call>, n: nat)
    requires n < |calls| && Monotone(calls)
    ensures Accepts(lim, After(lim, calls, n), calls[n]) == Accepts(lim, KeepingAfter(lim, calls, n), calls[n])
  {
    PruningSimulates(lim, calls, n, calls[n].now);
  }

  // ----- memory -----

  function Recent(s: State): set<string>
    requires s.startedAt.Some?
  {
    set k | k in s.latest && s.latest[k] >= s.startedAt.value
  }

  function Older(s: State): set<string>
    requires s.startedAt.Some?
  {
    set k | k in s.latest && s.latest[k] < s.startedAt.value
  }

  /** Entries of this window are counted by it; those of the window before are at most a windowful. */
  ghost predicate TableBounded(lim: Limits, s: State)
  {
    if s.startedAt.None? then s == INITIAL
    else
      && |Recent(s)| <= s.count <= lim.maxEvents && |Older(s)| <= lim.maxEvents
      && forall k :: k in s.latest ==> s.latest[k] < s.startedAt.value + lim.windowMs
  }

  lemma SmallerSet(a: set<string>, b: set<string>)
    requires a <= b
    ensures |a| <= |b|
  {
    assert |b| == |a| + |b - a| by {
      assert b == a + (b - a);
    }
  }

  lemma StepBounded(lim: Limits, s: State, c: Call)
    requires TableBounded(lim, s) && 0 < lim.dedupeMs <= lim.windowMs
    requires s.startedAt.Some? ==> s.startedAt.value <= c.now
    ensures TableBounded(lim, Step(lim, s, c))
  {
    var t := Step(lim, s, c);
    if s.startedAt.None? {
      assert Accepts(lim, s, c) ==> Recent(t) == {c.signature} && Older(t) == {};
      assert !Accepts(lim, s, c) ==> Recent(t) == {} && Older(t) == {};
    } else if Accepts(lim, s, c) {
      if OpensWindow(lim, s, c.now) {
        assert Recent(t) == {c.signature};
        SmallerSet(Older(t), Recent(s));
      } else {
        SmallerSet(Older(t), Older(s));
        SmallerSet(Recent(t), Recent(s) + {c.signature});
      }
    } else if !IsRepeat(lim, s.latest, c) && OpensWindow(lim, s, c.now) {
      assert lim.maxEvents == 0;
      assert s.latest.Keys == Recent(s) + Older(s);
      assert t.latest == map[];
      assert Recent(t) == {} && Older(t) == {};
    }
  }

  lemma {:induction false} RunBounded(lim: Limits, calls: seq<Call>, n: nat)
    requires n <= |calls| && Monotone(calls) && 0 < lim.dedupeMs <= lim.windowMs
    ensures TableBounded(lim, After(lim, calls, n))
  {
    if n > 0 {
      RunBounded(lim, calls, n - 1);
      WindowsBound(lim, calls, n - 1);
      StepBounded(lim, After(lim, calls, n - 1), calls[n - 1]);
    }
  }

  lemma {:induction false} WithoutDedupe(lim: Limits, calls: seq<Call>, n: nat)
    requires n <= |calls| && Monotone(calls) && lim.dedupeMs == 0
    ensures var s := After(lim, calls, n);
            && |s.latest| <= lim.maxEvents && |s.latest| <= 1
            && forall k :: k in s.latest ==> n > 0 && s.latest[k] <= calls[n - 1].now
  {
    if n > 0 {
      WithoutDedupe(lim, calls, n - 1);
      var s, c := After(lim, calls, n - 1), calls[n - 1];
      if Accepts(lim, s, c) {
        assert Pruned(lim, s.latest, c.now) == map[];
      }
    }
  }

  /** When dedupeMs does not exceed windowMs, the table never holds more than two windowfuls. */
  lemma TableStaysSmall(lim: Limits, calls: seq<Call>, n: nat)
    requires n <= |calls| && Monotone(calls) && lim.dedupeMs <= lim.windowMs
    ensures |After(lim, calls, n).latest| <= 2 * lim.maxEvents
  {
    var s := After(lim, calls, n);
    if lim.dedupeMs == 0 {
      WithoutDedupe(lim, calls, n);
    } else {
      RunBounded(lim, calls, n);
      if s.startedAt.Some? {
        assert s.latest.Keys == Recent(s) + Older(s);
        assert |s.latest| == |s.latest.Keys|;
      }
    }
  }
}
