/** Exactly how each step of a name request is decided, and what it leaves in the request table. */
module RequestPromises {
  import opened Wrappers
  import opened AddressRegistry
  import opened AddressRequests

  /** At most a minute apart. */
  ghost predicate IsNear(a: int, b: int)
  {
    -60 <= a - b <= 60
  }

  /** The owner's bound proof, made within a minute of this time. */
  ghost predicate IsOwnersProof(proof: Option<Proof>, owner: string, at: int)
  {
    proof.Some? && proof.value.pubkey == owner && proof.value.bound && IsNear(at, proof.value.createdAt)
  }

  /**
    The submission is well formed, signed by its wallet and not from the future, and its owner proved it
    just now; if it replays an older one, that one was proved in its own time, and otherwise it is new.
   */
  ghost predicate IsBacked(lib: Library, x: Submission, now: int)
  {
    && lib.isRequest(x.requestId, x.content, x.timestamp) && x.walletSigned && x.timestamp <= now + 60
    && IsOwnersProof(x.authorization, x.content.ownerPubkey, now)
    && (if x.original.None? then IsNear(now, x.timestamp)
        else IsOwnersProof(x.original, x.content.ownerPubkey, x.timestamp))
  }

  lemma BackedExactly(lib: Library, x: Submission, now: int)
    ensures Authorised(lib, x, now) <==> IsBacked(lib, x, now)
  {
  }

  /** The registry registers this name for this wallet and owner. */
  ghost predicate IsGranted(names: seq<ApprovedName>, content: Content)
  {
    exists n :: n in names && n.registration && n.name == content.desiredName &&
                n.sparkIdentity == content.sparkIdentity && n.ownerPubkey == content.ownerPubkey
  }

  lemma GrantedExactly(names: seq<ApprovedName>, content: Content)
    ensures HasRegistration(names, content) <==> IsGranted(names, content)
  {
    if n :| n in names && n.registration && n.name == content.desiredName &&
            n.sparkIdentity == content.sparkIdentity && n.ownerPubkey == content.ownerPubkey {
      var i :| 0 <= i < |names| && names[i] == n;
    }
  }

  /** One request moves to this phase, and no other is touched. */
  ghost predicate OnlyMoves(s: Gateway, t: Gateway, i: nat, phase: Phase)
    requires i < |s.processes|
  {
    && |t.processes| == |s.processes| && t.processes[i] == s.processes[i].(phase := phase)
    && forall k :: 0 <= k < |s.processes| && k != i ==> t.processes[k] == s.processes[k]
  }

  /** In every run a submission goes on to the table exactly when it is backed. */
  lemma SubmissionsAreChecked(lib: Library, run: Run, n: nat)
    requires IsRun(lib, run) && n < |run.actions| && run.actions[n].Arrives?
    ensures var s, a, t := run.states[n], run.actions[n], run.states[n + 1];
            && t.rows == s.rows
            && t.processes == s.processes +
                 [Process(a.submission, a.names, a.now,
                          if IsBacked(lib, a.submission, a.now) then AwaitPrevious else Ended(Unauthorised))]
  {
    assert Happens(lib, run, n);
    BackedExactly(lib, run.actions[n].submission, run.actions[n].now);
  }

  /** The row belongs to the submission: same owner, wallet and name; of a poll no more, otherwise the same note too. */
  ghost predicate IsItsRow(row: Row, x: Submission)
  {
    && row.content.ownerPubkey == x.content.ownerPubkey && row.content.sparkIdentity == x.content.sparkIdentity
    && row.content.desiredName == x.content.desiredName
    && (x.statusPath || row.content.note == x.content.note)
    && (x.original.Some? ==> row.signedPayload == x.raw)
  }

  lemma ItsRowExactly(lib: Library, row: Row, x: Submission)
    requires CollisionFree(lib) && row.requestHash == lib.hash(row.content)
    ensures Matches(lib, row, x) <==> IsItsRow(row, x)
  {
    if lib.hash(row.content) == lib.hash(x.content) {
      assert row.content == x.content;
    }
  }

  /** What the stored row, if there is one, decides. */
  ghost function Verdict(rows: Rows, p: Process): Phase
  {
    var x := p.submission;
    if x.requestId !in rows then (if x.statusPath then Ended(NotReceived) else AwaitChallenge)
    else if !IsItsRow(rows[x.requestId], x) then Ended(Conflict)
    else if IsGranted(p.names, x.content) then Ended(Approved)
    else Ended(Stored(rows[x.requestId].status))
  }

  /** In every run a stored row decides refusal, approval or status; without one a poll ends and the rest go on. */
  lemma StoredRowsDecide(lib: Library, run: Run, n: nat)
    requires CollisionFree(lib) && IsRun(lib, run) && n < |run.actions| && run.actions[n].SelectsPrevious?
    ensures var s, a, t := run.states[n], run.actions[n], run.states[n + 1];
            && a.process < |s.processes| && t.rows == s.rows
            && OnlyMoves(s, t, a.process, Verdict(s.rows, s.processes[a.process]))
  {
    assert Happens(lib, run, n);
    var s, p := run.states[n], run.states[n].processes[run.actions[n].process];
    RunStanding(lib, run, n, run.actions[n].process);
    GrantedExactly(p.names, p.submission.content);
    if p.submission.requestId in s.rows {
      ItsRowExactly(lib, s.rows[p.submission.requestId], p.submission);
    }
  }

  /** In every run exactly the submissions that pass the challenge go on to the insert. */
  lemma ChallengesDecide(lib: Library, run: Run, n: nat)
    requires IsRun(lib, run) && n < |run.actions| && run.actions[n].Challenges?
    ensures var s, a, t := run.states[n], run.actions[n], run.states[n + 1];
            && a.process < |s.processes| && t.rows == s.rows
            && OnlyMoves(s, t, a.process,
                         if a.outcome.Passed? then AwaitInsert else if a.outcome.NotConfigured? then Ended(Unavailable)
                         else if a.outcome.Limited? then Ended(RateLimited) else Ended(ChallengeFailed))
  {
    assert Happens(lib, run, n);
  }

  /** The row that a submission adds: received, as sent, with the proof it rests on. */
  ghost predicate IsNewRow(lib: Library, row: Row, p: Process)
  {
    var x := p.submission;
    && row.content == x.content && row.requestHash == lib.hash(x.content) && row.signedPayload == x.raw
    && Some(row.accountProof) == (if x.original.Some? then x.original else x.authorization)
    && row.walletProof == x.walletSignature && row.createdAt == p.now && row.status == Received
  }

  /** The table afterwards: one new row if the id was free, and every other row as it was. */
  ghost predicate Adds(lib: Library, rows: Rows, later: Rows, p: Process)
  {
    && later.Keys == rows.Keys + {p.submission.requestId}
    && (forall id :: id in rows ==> later[id] == rows[id])
    && (p.submission.requestId !in rows ==> IsNewRow(lib, later[p.submission.requestId], p))
  }

  /** In every run an insert adds the submission's row if its id is free, and the saved row is then looked at. */
  lemma InsertsAdd(lib: Library, run: Run, n: nat)
    requires CollisionFree(lib) && IsRun(lib, run) && n < |run.actions|
    requires run.actions[n].Inserts? || run.actions[n].InsertFails?
    ensures var s, a, t := run.states[n], run.actions[n], run.states[n + 1];
            && a.process < |s.processes|
            && (if a.InsertFails? && !a.written then t.rows == s.rows
                else Adds(lib, s.rows, t.rows, s.processes[a.process]))
            && OnlyMoves(s, t, a.process, if a.Inserts? then AwaitSaved else Ended(Unavailable))
  {
    assert Happens(lib, run, n);
    RunStanding(lib, run, n, run.actions[n].process);
  }

  /** In every run the saved row decides: received exactly when it has this content and, replayed, this payload. */
  lemma SavedRowsDecide(lib: Library, run: Run, n: nat)
    requires CollisionFree(lib) && IsRun(lib, run) && n < |run.actions| && run.actions[n].SelectsSaved?
    ensures var s, a, t := run.states[n], run.actions[n], run.states[n + 1];
            && a.process < |s.processes| && t.rows == s.rows
            && var x := s.processes[a.process].submission;
               OnlyMoves(s, t, a.process,
                         if x.requestId in s.rows && s.rows[x.requestId].content == x.content &&
                            (x.original.Some? ==> s.rows[x.requestId].signedPayload == x.raw)
                         then Ended(Accepted) else Ended(Conflict))
  {
    assert Happens(lib, run, n);
    RunStanding(lib, run, n, run.actions[n].process);
    var s, x := run.states[n], run.states[n].processes[run.actions[n].process].submission;
    if x.requestId in s.rows && lib.hash(s.rows[x.requestId].content) == lib.hash(x.content) {
      assert s.rows[x.requestId].content == x.content;
    }
  }

  /** In every run an operator's decision changes the status of that row, and nothing else. */
  lemma DecisionsChangeStatus(lib: Library, run: Run, n: nat)
    requires IsRun(lib, run) && n < |run.actions| && run.actions[n].Decides?
    ensures var s, a, t := run.states[n], run.actions[n], run.states[n + 1];
            && t.processes == s.processes && t.rows.Keys == s.rows.Keys
            && forall id :: id in s.rows ==>
                 t.rows[id] == if id == a.requestId then s.rows[id].(status := a.status) else s.rows[id]
  {
    assert Happens(lib, run, n);
  }

  /** A first submission that is backed and passes its challenge can go all the way to its row and its answer. */
  lemma SubmissionsCanGoThrough(lib: Library, names: seq<ApprovedName>, x: Submission, now: int) returns (run: Run)
    requires IsBacked(lib, x, now) && !x.statusPath
    ensures IsRun(lib, run) && |run.actions| == 5 && run.actions[0] == Arrives(x, names, now)
    ensures run.states[0].rows == map[] && x.requestId in run.states[5].rows
    ensures run.states[5].processes == [Process(x, names, now, Ended(Accepted))]
  {
    BackedExactly(lib, x, now);
    var s0 := Gateway(map[], []);
    var s1 := Next(lib, s0, Arrives(x, names, now));
    assert s1.processes == [Process(x, names, now, AwaitPrevious)];
    var s2 := Next(lib, s1, SelectsPrevious(0));
    var s3 := Next(lib, s2, Challenges(0, Passed));
    var s4 := Next(lib, s3, Inserts(0));
    var s5 := Next(lib, s4, SelectsSaved(0));
    run := Run([s0, s1, s2, s3, s4, s5],
               [Arrives(x, names, now), SelectsPrevious(0), Challenges(0, Passed), Inserts(0), SelectsSaved(0)]);
  }
}
