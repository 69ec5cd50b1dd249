/** Exactly which management requests go on at each step of their life, and what each step leaves in the tables. */
module AddressPromises {
  import opened Wrappers
  import opened Text
  import opened AddressRegistry
  import opened AddressManagement

  /** Decimal text: the digits of the number's size, with a sign in front if it is negative. */
  lemma IntTextReads(n: int)
    ensures if n < 0 then IntText(n)[0] == '-' && AllDigits(IntText(n)[1..]) && Number(IntText(n)[1..]) == -n
            else AllDigits(IntText(n)) && Number(IntText(n)) == n
  {
    NumberDecimal(if n < 0 then -n else n);
    if n < 0 {
      assert IntText(n)[1..] == Decimal(-n);
    }
  }

  // ----- screening -----

  /** A request that passes every check made before the tables are read: proper, allowed, and signed. */
  ghost predicate Passes(lib: Library, names: seq<ApprovedName>, r: Request, now: int)
  {
    && IsProper(lib, r, now) && IsSigned(lib, r)
    && (r.operation == Recover || exists n :: n in names && Allows(n, r, now))
  }

  lemma ApprovalAllows(lib: Library, names: seq<ApprovedName>, r: Request, now: int)
    requires SoundRegistry(lib.isIdentity, names)
    ensures (exists n :: n in names && Allows(n, r, now)) <==>
              var found := FindApproval(names, r.name, r.identity); found.Some? && Allows(found.value, r, now)
  {
    forall n | n in names && Allows(n, r, now) ensures FindApproval(names, r.name, r.identity) == Some(n) {
      ApprovalIsUnique(lib.isIdentity, names, r.name, r.identity, n);
    }
  }

  /** What a screened request is answered: nothing yet, or the status of the first check that it fails. */
  lemma ScreensExactly(lib: Library, names: seq<ApprovedName>, r: Request, now: int)
    requires SoundRegistry(lib.isIdentity, names)
    ensures var allowed := r.operation == Recover || exists n :: n in names && Allows(n, r, now);
            var screen := Screen(lib, names, r, now);
            && (screen.Success? <==> Passes(lib, names, r, now))
            && (!lib.isIdentity(r.identity) ==> screen == Failure(404))
            && (lib.isIdentity(r.identity) && !(-600 <= now - r.timestamp <= 600) ==> screen == Failure(401))
            && (lib.isIdentity(r.identity) && -600 <= now - r.timestamp <= 600 && !IsProper(lib, r, now) ==>
                  screen == Failure(400))
            && (IsProper(lib, r, now) && r.operation == Transfer && !allowed ==> screen == Failure(403))
            && (IsProper(lib, r, now) && r.operation == Transfer && allowed && !IsSigned(lib, r) ==>
                  screen == Failure(401))
            && (IsProper(lib, r, now) && r.operation != Transfer && !IsSigned(lib, r) ==> screen == Failure(401))
            && (IsProper(lib, r, now) && r.operation != Transfer && IsSigned(lib, r) && !allowed ==>
                  screen == Failure(403))
  {
    ApprovalAllows(lib, names, r, now);
    StatementsAreLines(lib, r);
    NamesAreDotted(r.name);
  }

  /** The owner of an entry for the requested name and wallet proved the request. */
  ghost predicate OwnerAgrees(names: seq<ApprovedName>, r: Request, now: int)
  {
    exists n :: n in names && n.name == r.name && n.sparkIdentity == r.identity && IsOwners(n, r, now)
  }

  lemma OwnersProof(lib: Library, names: seq<ApprovedName>, r: Request, now: int, qualified: bool)
    requires SoundRegistry(lib.isIdentity, names)
    ensures BeforeClaim(names, r, now, qualified) ==
            if OwnerAgrees(names, r, now) && qualified then AwaitClaim else Ended
  {
    forall n | n in names && n.name == r.name && n.sparkIdentity == r.identity
      ensures FindApproval(names, r.name, r.identity) == Some(n)
    {
      ApprovalIsUnique(lib.isIdentity, names, r.name, r.identity, n);
    }
  }

  /** Where a request goes first, and only if it passes: a register to its observation, the rest on their way. */
  ghost predicate GoesFirst(lib: Library, a: Action, phase: Phase)
    requires a.Arrives?
  {
    var r := a.request;
    if !Passes(lib, a.names, r, a.now) then phase == Ended
    else
      match r.operation
      case Register => phase == AwaitObservation
      case Recover => phase == if a.limited then Ended else AwaitForward
      case Available => phase == AwaitForward
      case Unregister => phase == if OwnerAgrees(a.names, r, a.now) && a.qualified then AwaitClaim else Ended
      case Transfer => phase == if OwnerAgrees(a.names, r, a.now) && a.qualified then AwaitClaim else Ended
  }

  lemma FirstPhaseExactly(lib: Library, a: Action)
    requires a.Arrives? && SoundRegistry(lib.isIdentity, a.names)
    ensures GoesFirst(lib, a, FirstPhase(lib, a.names, a.request, a.now, a.qualified, a.limited))
  {
    ScreensExactly(lib, a.names, a.request, a.now);
    OwnersProof(lib, a.names, a.request, a.now, a.qualified);
  }

  /** In every run an arriving request goes on exactly as it should, and nothing else changes. */
  lemma ArrivalsAreScreened(lib: Library, run: Run, n: nat)
    requires IsRun(lib, run) && n < |run.actions| && run.actions[n].Arrives?
    requires SoundRegistry(lib.isIdentity, run.actions[n].names)
    ensures var s, a, t := run.states[n], run.actions[n], run.states[n + 1];
            && t.observations == s.observations && t.claims == s.claims
            && exists phase :: GoesFirst(lib, a, phase) &&
                 t.processes == s.processes + [Process(a.request, a.names, a.now, phase, false, false)]
  {
    assert Happens(lib, run, n);
    FirstPhaseExactly(lib, run.actions[n]);
  }

  // ----- the steps of one request -----

  /** One request moves to this phase, with these flags, and no other request is touched. */
  ghost predicate OnlyMoves(s: Gateway, t: Gateway, q: nat, phase: Phase, claimed: bool, forwarded: bool)
    requires q < |s.processes|
  {
    && |t.processes| == |s.processes|
    && t.processes[q] == s.processes[q].(phase := phase, claimed := claimed, forwarded := forwarded)
    && forall i :: 0 <= i < |s.processes| && i != q ==> t.processes[i] == s.processes[i]
  }

  /** The wallet's row is at most a minute old and names nothing, the requested name, or the one to be replaced. */
  ghost predicate RowAdmits(rows: Observations, p: Process)
  {
    && p.request.identity in rows && p.now - rows[p.request.identity].observedAt <= 60
    && exists n :: n in p.names && n.name == p.request.name && n.sparkIdentity == p.request.identity &&
                   rows[p.request.identity].name in {None, Some(p.request.name), n.replacing}
  }

  /** In every run a register goes on to its claim exactly when the wallet's row admits it and its owner agrees. */
  lemma RegistersAreChecked(lib: Library, run: Run, n: nat)
    requires IsRun(lib, run) && n < |run.actions| && run.actions[n].SelectsObservation?
    requires run.actions[n].process < |run.states[n].processes| ==>
               SoundRegistry(lib.isIdentity, run.states[n].processes[run.actions[n].process].names)
    ensures var s, a, t := run.states[n], run.actions[n], run.states[n + 1];
            && a.process < |s.processes| && t.observations == s.observations && t.claims == s.claims
            && var p := s.processes[a.process];
               OnlyMoves(s, t, a.process,
                         if RowAdmits(s.observations, p) && OwnerAgrees(p.names, p.request, p.now) && a.qualified
                         then AwaitClaim else Ended, p.claimed, p.forwarded)
  {
    assert Happens(lib, run, n);
    var p := run.states[n].processes[run.actions[n].process];
    OwnersProof(lib, p.names, p.request, p.now, run.actions[n].qualified);
    forall m | m in p.names && m.name == p.request.name && m.sparkIdentity == p.request.identity
      ensures FindApproval(p.names, p.request.name, p.request.identity) == Some(m)
    {
      ApprovalIsUnique(lib.isIdentity, p.names, p.request.name, p.request.identity, m);
    }
  }

  /** What a claim stands for: the wallet, and the lines its signatures cover. */
  ghost function ClaimOf(lib: Library, r: Request): ClaimKey
  {
    var lines := WalletLines(lib, r);
    ClaimKey(r.identity, seq(|lines|, i requires 0 <= i < |lines| => Join(lines[i], '\n')))
  }

  lemma KeysAreClaims(lib: Library, r: Request)
    ensures KeyOf(lib, r) == ClaimOf(lib, r)
  {
    StatementsAreLines(lib, r);
  }

  /** In every run a mutation takes its claim, until ten minutes after its time, exactly when nobody holds it. */
  lemma ClaimsAreTaken(lib: Library, run: Run, n: nat)
    requires IsRun(lib, run) && n < |run.actions| && run.actions[n].InsertsClaim?
    ensures var s, a, t := run.states[n], run.actions[n], run.states[n + 1];
            && a.process < |s.processes| && t.observations == s.observations
            && var p := s.processes[a.process];
               if ClaimOf(lib, p.request) in s.claims then
                 t.claims == s.claims && OnlyMoves(s, t, a.process, Ended, p.claimed, p.forwarded)
               else
                 && t.claims ==
                    s.claims[ClaimOf(lib, p.request) := Claim(p.request.identity, p.request.timestamp + 600)]
                 && OnlyMoves(s, t, a.process, AwaitForward, true, p.forwarded)
  {
    assert Happens(lib, run, n);
    KeysAreClaims(lib, run.states[n].processes[run.actions[n].process].request);
  }

  /** In every run what goes upstream waits for its reply. */
  lemma ForwardsWait(lib: Library, run: Run, n: nat)
    requires IsRun(lib, run) && n < |run.actions| && run.actions[n].Forwards?
    ensures var s, a, t := run.states[n], run.actions[n], run.states[n + 1];
            && a.process < |s.processes| && t.observations == s.observations && t.claims == s.claims
            && OnlyMoves(s, t, a.process, AwaitReply, s.processes[a.process].claimed, true)
  {
    assert Happens(lib, run, n);
  }

  /** In every run the reply to a recover is recorded exactly when it says something of a registered wallet. */
  lemma RepliesAreHeard(lib: Library, run: Run, n: nat, observed: Option<string>)
    requires IsRun(lib, run) && n < |run.actions| && run.actions[n].Receives?
    ensures var s, a, t := run.states[n], run.actions[n], run.states[n + 1];
            && a.process < |s.processes| && t.observations == s.observations && t.claims == s.claims
            && var p := s.processes[a.process];
               var heard := p.request.operation == Recover &&
                            exists m :: m in p.names && m.sparkIdentity == p.request.identity && m.registration;
               && (heard && SaysName(a.reply, observed) ==>
                     OnlyMoves(s, t, a.process, AwaitPrune(observed), p.claimed, p.forwarded))
               && (!heard || (forall x :: !SaysName(a.reply, x)) ==>
                     OnlyMoves(s, t, a.process, Ended, p.claimed, p.forwarded))
  {
    assert Happens(lib, run, n);
    var s, a := run.states[n], run.actions[n];
    var p := s.processes[a.process];
    ObservedExactly(a.reply, observed);
    if Observed(a.reply).Some? {
      ObservedExactly(a.reply, Observed(a.reply).value);
    }
    forall m | m in p.names && m.sparkIdentity == p.request.identity && m.registration
      ensures IsRegistered(p.names, p.request.identity)
    {
      var i :| 0 <= i < |p.names| && p.names[i] == m;
    }
  }

  /** In every run a recovery that is to be recorded first clears all rows more than a day older than itself. */
  lemma OldRowsAreCleared(lib: Library, run: Run, n: nat, identity: string)
    requires IsRun(lib, run) && n < |run.actions| && run.actions[n].Prunes?
    ensures var s, a, t := run.states[n], run.actions[n], run.states[n + 1];
            && a.process < |s.processes| && s.processes[a.process].phase.AwaitPrune? && t.claims == s.claims
            && var p := s.processes[a.process];
               && (identity in t.observations <==>
                     identity in s.observations && p.now - s.observations[identity].observedAt <= 86_400)
               && (identity in t.observations ==> t.observations[identity] == s.observations[identity])
               && OnlyMoves(s, t, a.process, AwaitUpsert(p.phase.observed), p.claimed, p.forwarded)
  {
    assert Happens(lib, run, n);
  }

  /** Then it is the wallet's row, unless that is a later one; no other row changes. */
  lemma RecoveriesAreRecorded(lib: Library, run: Run, n: nat)
    requires IsRun(lib, run) && n < |run.actions| && run.actions[n].Upserts?
    ensures var s, a, t := run.states[n], run.actions[n], run.states[n + 1];
            && a.process < |s.processes| && s.processes[a.process].phase.AwaitUpsert? && t.claims == s.claims
            && var p, id := s.processes[a.process], s.processes[a.process].request.identity;
               && (t.observations ==
                   if id in s.observations && s.observations[id].observedAt > p.now then s.observations
                   else s.observations[id := Observation(p.phase.observed, p.now)])
               && OnlyMoves(s, t, a.process, Ended, p.claimed, p.forwarded)
  {
    assert Happens(lib, run, n);
  }

  // ----- a recovery and a registration that go through -----

  lemma RecoverIsRecorded(lib: Library, names: seq<ApprovedName>, s: Gateway, r: Request, now: int)
    returns (t: Gateway, u: Gateway)
    requires s == Gateway(map[], map[], [Process(r, names, now, AwaitPrune(None), false, true)])
    ensures Enabled(s, Prunes(0)) && t == Next(lib, s, Prunes(0))
    ensures Enabled(t, Upserts(0)) && u == Next(lib, t, Upserts(0))
    ensures u.claims == map[] && |u.processes| == 1 && u.observations == map[r.identity := Observation(None, now)]
  {
    t := Next(lib, s, Prunes(0));
    assert t.observations == map[];
    u := Next(lib, t, Upserts(0));
  }

  lemma RecoverIsHeard(lib: Library, names: seq<ApprovedName>, r: Request, now: int, reply: Reply)
    returns (s: Gateway, t: Gateway, u: Gateway)
    requires SoundRegistry(lib.isIdentity, names) && Passes(lib, names, r, now) && r.operation == Recover
    requires SaysName(reply, None) && exists n :: n in names && n.sparkIdentity == r.identity && n.registration
    ensures var arrival := Arrives(r, names, now, true, false);
            Enabled(EMPTY, arrival) && s == Next(lib, EMPTY, arrival)
    ensures Enabled(s, Forwards(0)) && t == Next(lib, s, Forwards(0))
    ensures Enabled(t, Receives(0, reply)) && u == Next(lib, t, Receives(0, reply))
    ensures u == Gateway(map[], map[], [Process(r, names, now, AwaitPrune(None), false, true)])
  {
    var arrival := Arrives(r, names, now, true, false);
    FirstPhaseExactly(lib, arrival);
    ObservedExactly(reply, None);
    var n :| n in names && n.sparkIdentity == r.identity && n.registration;
    var k :| 0 <= k < |names| && names[k] == n;
    assert IsRegistered(names, r.identity);
    s := Next(lib, EMPTY, arrival);
    assert s.processes == [Process(r, names, now, AwaitForward, false, false)];
    t := Next(lib, s, Forwards(0));
    u := Next(lib, t, Receives(0, reply));
  }

  const EMPTY := Gateway(map[], map[], [])

  lemma RecoverGoesThrough(lib: Library, names: seq<ApprovedName>, r: Request, now: int, reply: Reply)
    returns (states: seq<Gateway>)
    requires SoundRegistry(lib.isIdentity, names) && Passes(lib, names, r, now) && r.operation == Recover
    requires SaysName(reply, None) && exists n :: n in names && n.sparkIdentity == r.identity && n.registration
    ensures var actions := [Arrives(r, names, now, true, false), Forwards(0), Receives(0, reply), Prunes(0),
                            Upserts(0)];
            && |states| == 6 && states[0] == EMPTY
            && (forall i :: 0 <= i < 5 ==> Enabled(states[i], actions[i]) &&
                                           states[i + 1] == Next(lib, states[i], actions[i]))
            && states[5].claims == map[] && |states[5].processes| == 1
            && states[5].observations == map[r.identity := Observation(None, now)]
  {
    var s1, s2, s3 := RecoverIsHeard(lib, names, r, now, reply);
    var s4, s5 := RecoverIsRecorded(lib, names, s3, r, now);
    states := [EMPTY, s1, s2, s3, s4, s5];
  }

  /** After such a recovery a register of the wallet can go all the way upstream. */
  lemma RegisterGoesThrough(lib: Library, names: seq<ApprovedName>, s: Gateway, r: Request, now: int)
    returns (states: seq<Gateway>)
    requires SoundRegistry(lib.isIdentity, names) && Passes(lib, names, r, now) && r.operation == Register
    requires OwnerAgrees(names, r, now) && |s.processes| == 1 && s.claims == map[]
    requires r.identity in s.observations && s.observations[r.identity] == Observation(None, now)
    ensures var actions := [Arrives(r, names, now, true, false), SelectsObservation(1, true), InsertsClaim(1),
                            Forwards(1)];
            && |states| == 5 && states[0] == s
            && (forall i :: 0 <= i < 4 ==> Enabled(states[i], actions[i]) &&
                                           states[i + 1] == Next(lib, states[i], actions[i]))
            && |states[4].processes| == 2 && states[4].processes[1].request == r && states[4].processes[1].forwarded
  {
    var arrival := Arrives(r, names, now, true, false);
    FirstPhaseExactly(lib, arrival);
    OwnersProof(lib, names, r, now, true);
    var s1 := Next(lib, s, arrival);
    assert s1.processes[1] == Process(r, names, now, AwaitObservation, false, false);
    var s2 := Next(lib, s1, SelectsObservation(1, true));
    assert s2.processes[1].phase == AwaitClaim;
    var s3 := Next(lib, s2, InsertsClaim(1));
    assert s3.processes[1].phase == AwaitForward;
    var s4 := Next(lib, s3, Forwards(1));
    states := [s, s1, s2, s3, s4];
  }

  /** Some run forwards a register: the checks before it can all be met, one after the other. */
  lemma RegistersCanGoThrough(lib: Library, names: seq<ApprovedName>, recover: Request, register: Request, now: int)
    returns (run: Run)
    requires SoundRegistry(lib.isIdentity, names)
    requires Passes(lib, names, recover, now) && recover.operation == Recover
    requires Passes(lib, names, register, now) && register.operation == Register && OwnerAgrees(names, register, now)
    requires recover.identity == register.identity
    ensures IsRun(lib, run) && |run.actions| == 9 && run.actions[8] == Forwards(1)
    ensures |run.states[9].processes| == 2 && run.states[9].processes[1].request == register
    ensures run.states[9].processes[1].forwarded
  {
    var reply := Reply(404, Message("user not found"));
    var n :| n in names && Allows(n, register, now);
    var first := RecoverGoesThrough(lib, names, recover, now, reply);
    var second := RegisterGoesThrough(lib, names, first[5], register, now);
    run := Run(first + second[1..],
               [Arrives(recover, names, now, true, false), Forwards(0), Receives(0, reply), Prunes(0), Upserts(0),
                Arrives(register, names, now, true, false), SelectsObservation(1, true), InsertsClaim(1), Forwards(1)]);
    forall i | 0 <= i < 9 ensures Happens(lib, run, i) {
      if i < 5 {
        assert run.states[i] == first[i] && run.states[i + 1] == first[i + 1];
      } else {
        assert run.states[i] == second[i - 5] && run.states[i + 1] == second[i - 4];
      }
    }
  }
}
