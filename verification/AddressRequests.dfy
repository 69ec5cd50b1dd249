/**
  The gateway's name-request protocol over its request table. Requests run at once, each as
  SELECT, challenge, INSERT OR IGNORE, SELECT; operators change a row's status in between.
 */
module AddressRequests {
  import opened Wrappers
  import opened AddressRegistry

  /** What a request asks for; its hash is the request_hash column. */
  datatype Content = Content(ownerPubkey: string, sparkIdentity: string, desiredName: string, note: string)

  /** The HTTP proof that binds a submission; `bound` covers kind, content, tags and signature. */
  datatype Proof = Proof(pubkey: string, createdAt: int, bound: bool)

  datatype Submission = Submission(
    statusPath: bool,
    requestId: string,
    content: Content,
    timestamp: int,
    walletSigned: bool,
    walletSignature: string,
    raw: string,
    authorization: Option<Proof>,
    original: Option<Proof>)
  {
    predicate IsReplay()
    {
      original.Some?
    }
  }

  datatype Status = Received | Declined

  datatype Row = Row(
    content: Content,
    requestHash: string,
    signedPayload: string,
    accountProof: Proof,
    walletProof: string,
    createdAt: int,
    status: Status)

  type Rows = map<string, Row>

  datatype Library = Library(hash: Content -> string, isRequest: (string, Content, int) -> bool)

  predicate Within(a: int, b: int, seconds: nat)
  {
    a - b <= seconds && b - a <= seconds
  }

  /** The proof that stands for the submission: the replayed original if one was sent. */
  function Authority(x: Submission): Option<Proof>
  {
    if x.IsReplay() then x.original else x.authorization
  }

  /** The proofs that must hold before any SQL statement runs. */
  predicate Authorised(lib: Library, x: Submission, now: int)
  {
    var at := if x.IsReplay() then x.timestamp else now;
    && (x.IsReplay() ==> BoundProof(x.authorization, x.content.ownerPubkey, now))
    && BoundProof(Authority(x), x.content.ownerPubkey, at)
    && x.timestamp <= now + 60 && Within(at, x.timestamp, 60)
    && lib.isRequest(x.requestId, x.content, x.timestamp) && x.walletSigned
  }

  predicate BoundProof(proof: Option<Proof>, owner: string, at: int)
  {
    proof.Some? && proof.value.pubkey == owner && proof.value.bound && Within(at, proof.value.createdAt, 60)
  }

  datatype Answer =
    | Unauthorised
    | Conflict
    | NotReceived
    | Approved
    | Stored(status: Status)
    | Accepted
    | Unavailable
    | RateLimited
    | ChallengeFailed
  {
    predicate Positive()
    {
      Approved? || Stored? || Accepted?
    }
  }

  datatype Phase = AwaitPrevious | AwaitChallenge | AwaitInsert | AwaitSaved | Ended(answer: Answer)

  datatype Process = Process(submission: Submission, names: seq<ApprovedName>, now: int, phase: Phase)

  datatype Gateway = Gateway(rows: Rows, processes: seq<Process>)

  /** INSERT OR IGNORE INTO name_requests */
  function InsertRequest(rows: Rows, id: string, row: Row): Rows
  {
    if id in rows then rows else rows[id := row]
  }

  /** UPDATE name_requests SET status: all that the immutability trigger lets through. */
  function SetStatus(rows: Rows, id: string, status: Status): Rows
  {
    if id in rows then rows[id := rows[id].(status := status)] else rows
  }

  function NewRow(lib: Library, x: Submission, now: int): Row
    requires Authority(x).Some?
  {
    Row(x.content, lib.hash(x.content), x.raw, Authority(x).value, x.walletSignature, now, Received)
  }

  /** The registration the deployed registry holds for exactly this owner, wallet and name. */
  predicate HasRegistration(names: seq<ApprovedName>, content: Content)
  {
    exists i :: 0 <= i < |names| && names[i].registration && names[i].name == content.desiredName &&
                names[i].sparkIdentity == content.sparkIdentity && names[i].ownerPubkey == content.ownerPubkey
  }

  /** Does the row found under the request id belong to this submission? */
  predicate Matches(lib: Library, row: Row, x: Submission)
  {
    && row.content.ownerPubkey == x.content.ownerPubkey
    && row.content.sparkIdentity == x.content.sparkIdentity
    && row.content.desiredName == x.content.desiredName
    && (x.IsReplay() ==> row.signedPayload == x.raw)
    && (!x.statusPath ==> row.requestHash == lib.hash(x.content))
  }

  function AfterPrevious(lib: Library, rows: Rows, x: Submission, names: seq<ApprovedName>): Phase
  {
    if x.requestId in rows then
      var previous := rows[x.requestId];
      if !Matches(lib, previous, x) then Ended(Conflict)
      else if HasRegistration(names, x.content) then Ended(Approved)
      else Ended(Stored(previous.status))
    else if x.statusPath then Ended(NotReceived)
    else AwaitChallenge
  }

  function AfterSaved(lib: Library, rows: Rows, x: Submission): Phase
  {
    if x.requestId in rows && rows[x.requestId].requestHash == lib.hash(x.content) &&
       (x.IsReplay() ==> rows[x.requestId].signedPayload == x.raw)
    then Ended(Accepted)
    else Ended(Conflict)
  }

  /** What configuration, the rate limiter and the challenge service made of the submission. */
  datatype Challenge = Passed | NotConfigured | Limited | Failed

  datatype Action =
    | Arrives(submission: Submission, names: seq<ApprovedName>, now: int)
    | SelectsPrevious(process: nat)
    | Challenges(process: nat, outcome: Challenge)
    | Inserts(process: nat)
    | InsertFails(process: nat, written: bool)
    | SelectsSaved(process: nat)
    | Aborts(process: nat)
    | Decides(requestId: string, status: Status)

  predicate In(s: Gateway, process: nat, phase: Phase)
  {
    process < |s.processes| && s.processes[process].phase == phase
  }

  predicate Enabled(s: Gateway, a: Action)
  {
    match a
    case SelectsPrevious(process) => In(s, process, AwaitPrevious)
    case Challenges(process, _) => In(s, process, AwaitChallenge)
    case Inserts(process) => In(s, process, AwaitInsert)
    case InsertFails(process, _) => In(s, process, AwaitInsert)
    case SelectsSaved(process) => In(s, process, AwaitSaved)
    case Aborts(process) => process < |s.processes| && !s.processes[process].phase.Ended?
    case _ => true
  }

  function Move(s: Gateway, process: nat, phase: Phase): Gateway
    requires process < |s.processes|
  {
    s.(processes := s.processes[process := s.processes[process].(phase := phase)])
  }

  function NextRows(lib: Library, s: Gateway, a: Action): Rows
    requires Enabled(s, a)
  {
    match a
    case Inserts(p) => Insertion(lib, s.rows, s.processes[p])
    case InsertFails(p, written) => if written then Insertion(lib, s.rows, s.processes[p]) else s.rows
    case Decides(requestId, status) => SetStatus(s.rows, requestId, status)
    case _ => s.rows
  }

  function Insertion(lib: Library, rows: Rows, p: Process): Rows
  {
    if Authority(p.submission).None? then rows
    else InsertRequest(rows, p.submission.requestId, NewRow(lib, p.submission, p.now))
  }

  function Next(lib: Library, s: Gateway, a: Action): Gateway
    requires Enabled(s, a)
  {
    var t := s.(rows := NextRows(lib, s, a));
    match a
    case Arrives(x, names, now) =>
      var phase := if Authorised(lib, x, now) then AwaitPrevious else Ended(Unauthorised);
      t.(processes := s.processes + [Process(x, names, now, phase)])
    case SelectsPrevious(p) =>
      Move(t, p, AfterPrevious(lib, s.rows, s.processes[p].submission, s.processes[p].names))
    case Challenges(p, outcome) =>
      Move(t, p, match outcome
                 case Passed => AwaitInsert
                 case NotConfigured => Ended(Unavailable)
                 case Limited => Ended(RateLimited)
                 case Failed => Ended(ChallengeFailed))
    case Inserts(p) => Move(t, p, AwaitSaved)
    case InsertFails(p, _) => Move(t, p, Ended(Unavailable))
    case SelectsSaved(p) => Move(t, p, AfterSaved(lib, s.rows, s.processes[p].submission))
    case Aborts(p) => Move(t, p, Ended(Unavailable))
    case Decides(_, _) => t
  }

  datatype Run = Run(states: seq<Gateway>, actions: seq<Action>)

  ghost predicate Happens(lib: Library, run: Run, n: nat)
    requires |run.states| == |run.actions| + 1 && n < |run.actions|
  {
    && Enabled(run.states[n], run.actions[n])
    && run.states[n + 1] == Next(lib, run.states[n], run.actions[n])
  }

  /** A row whose hash column is the hash of its content columns. */
  ghost predicate SoundRows(lib: Library, rows: Rows)
  {
    forall id :: id in rows ==> rows[id].requestHash == lib.hash(rows[id].content)
  }

  ghost predicate CollisionFree(lib: Library)
  {
    forall a, b :: lib.hash(a) == lib.hash(b) ==> a == b
  }

  /** Any interleaving from any sound table with no request in flight. */
  ghost predicate IsRun(lib: Library, run: Run)
  {
    && |run.states| == |run.actions| + 1
    && run.states[0].processes == [] && SoundRows(lib, run.states[0].rows)
    && forall n :: 0 <= n < |run.actions| ==> Happens(lib, run, n)
  }

  // ----- rows keep their evidence -----

  /** Equal in every column but the status. */
  predicate SameEvidence(a: Row, b: Row)
  {
    a.(status := Received) == b.(status := Received)
  }

  ghost predicate RowsKeep(rows: Rows, later: Rows)
  {
    forall id :: id in rows ==> id in later && SameEvidence(rows[id], later[id])
  }

  /** The first insert of a request id wins: its evidence is never replaced, edited or removed. */
  lemma {:induction false} EvidenceIsImmutable(lib: Library, run: Run, m: nat, n: nat)
    requires IsRun(lib, run) && m <= n <= |run.actions|
    ensures RowsKeep(run.states[m].rows, run.states[n].rows)
  {
    if m < n {
      EvidenceIsImmutable(lib, run, m, n - 1);
      assert Happens(lib, run, n - 1);
      assert RowsKeep(run.states[n - 1].rows, run.states[n].rows);
    }
  }

  /** The step at which a row first appears inserts an authorised, challenged submission. */
  ghost predicate InsertsAuthorised(lib: Library, run: Run, n: nat, id: string, row: Row)
    requires n < |run.actions| < |run.states|
  {
    && (run.actions[n].Inserts? || run.actions[n].InsertFails?)
    && run.actions[n].process < |run.states[n].processes|
    && var p := run.states[n].processes[run.actions[n].process];
       && Authorised(lib, p.submission, p.now) && p.submission.requestId == id && !p.submission.statusPath
       && SameEvidence(row, NewRow(lib, p.submission, p.now))
       && exists c :: 0 <= c < n && run.actions[c] == Challenges(run.actions[n].process, Passed)
  }

  // ----- what an answer says about the table -----

  /** How a request stands with the table, in every phase of its life. */
  ghost predicate Standing(lib: Library, rows: Rows, p: Process)
  {
    var x := p.submission;
    && (p.phase != Ended(Unauthorised) ==> Authorised(lib, x, p.now))
    && (p.phase in {AwaitChallenge, AwaitInsert, AwaitSaved, Ended(Accepted)} ==> !x.statusPath)
    && (p.phase == AwaitSaved ==> x.requestId in rows)
    && (p.phase.Ended? && p.phase.answer.Positive() ==> x.requestId in rows && Matches(lib, rows[x.requestId], x))
    && (p.phase == Ended(Conflict) ==> x.requestId in rows && !Matches(lib, rows[x.requestId], x))
    && (p.phase == Ended(Approved) ==> HasRegistration(p.names, rows[x.requestId].content))
  }

  lemma StandingKept(lib: Library, rows: Rows, later: Rows, p: Process)
    requires RowsKeep(rows, later) && Standing(lib, rows, p)
    ensures Standing(lib, later, p)
  {
    var id := p.submission.requestId;
    if id in rows {
      assert SameEvidence(rows[id], later[id]);
      assert rows[id].content == later[id].content;
    }
  }

  lemma SavedTells(lib: Library, rows: Rows, p: Process)
    requires CollisionFree(lib) && SoundRows(lib, rows)
    requires p.phase == AwaitSaved && Standing(lib, rows, p)
    ensures Standing(lib, rows, p.(phase := AfterSaved(lib, rows, p.submission)))
  {
  }

  lemma NextStanding(lib: Library, s: Gateway, a: Action, i: nat)
    requires CollisionFree(lib) && SoundRows(lib, s.rows) && Enabled(s, a)
    requires i < |s.processes| ==> Standing(lib, s.rows, s.processes[i])
    requires RowsKeep(s.rows, Next(lib, s, a).rows) && i < |Next(lib, s, a).processes|
    ensures Standing(lib, Next(lib, s, a).rows, Next(lib, s, a).processes[i])
  {
    if i < |s.processes| {
      StandingKept(lib, s.rows, NextRows(lib, s, a), s.processes[i]);
      if a == SelectsSaved(i) {
        SavedTells(lib, s.rows, s.processes[i]);
      }
    }
  }

  lemma {:induction false} RunStanding(lib: Library, run: Run, n: nat, i: nat)
    requires CollisionFree(lib) && IsRun(lib, run) && n <= |run.actions|
    ensures SoundRows(lib, run.states[n].rows)
    ensures i < |run.states[n].processes| ==> Standing(lib, run.states[n].rows, run.states[n].processes[i])
  {
    if n > 0 {
      RunStanding(lib, run, n - 1, i);
      EvidenceIsImmutable(lib, run, n - 1, n);
      assert Happens(lib, run, n - 1);
      if i < |run.states[n].processes| {
        NextStanding(lib, run.states[n - 1], run.actions[n - 1], i);
      }
    }
  }

  /**
    All submissions of one request id that succeed, at whatever moments of a run, carry the same
    content: that of the row stored from then on, of which a replay also carries the exact payload.
   */
  lemma SuccessfulSubmissionsAgree(lib: Library, run: Run, m: nat, i: nat, n: nat, j: nat)
    requires CollisionFree(lib) && IsRun(lib, run) && m <= n <= |run.actions|
    requires i < |run.states[m].processes| && j < |run.states[n].processes|
    requires Succeeded(run.states[m].processes[i]) && Succeeded(run.states[n].processes[j])
    requires run.states[m].processes[i].submission.requestId == run.states[n].processes[j].submission.requestId
    ensures var x, y := run.states[m].processes[i].submission, run.states[n].processes[j].submission;
            && x.requestId in run.states[n].rows
            && x.content == y.content == run.states[n].rows[x.requestId].content
            && (x.IsReplay() ==> x.raw == run.states[n].rows[x.requestId].signedPayload)
            && (y.IsReplay() ==> y.raw == run.states[n].rows[x.requestId].signedPayload)
  {
    RunStanding(lib, run, m, i);
    RunStanding(lib, run, n, j);
    EvidenceIsImmutable(lib, run, m, n);
    StandingKept(lib, run.states[m].rows, run.states[n].rows, run.states[m].processes[i]);
  }

  /** A submission (not a status poll) that was answered with success. */
  predicate Succeeded(p: Process)
  {
    !p.submission.statusPath && p.phase.Ended? && p.phase.answer.Positive()
  }

  /**
    Once a request id is stored, a submission that ends in success or in conflict ends in success
    exactly when its content is the stored one (and, for a replay, its payload too).
   */
  lemma SuccessIffStored(lib: Library, run: Run, n: nat, i: nat)
    requires CollisionFree(lib) && IsRun(lib, run) && n <= |run.actions| && i < |run.states[n].processes|
    requires !run.states[n].processes[i].submission.statusPath
    requires Succeeded(run.states[n].processes[i]) || run.states[n].processes[i].phase == Ended(Conflict)
    ensures var p, rows := run.states[n].processes[i], run.states[n].rows;
            && p.submission.requestId in rows
            && var row := rows[p.submission.requestId];
               Succeeded(p) <==>
                 && row.content == p.submission.content
                 && (p.submission.IsReplay() ==> row.signedPayload == p.submission.raw)
  {
    RunStanding(lib, run, n, i);
  }

  /** "approved" is only ever said of a stored request that the deployed registry registers. */
  lemma ApprovalComesFromRegistry(lib: Library, run: Run, n: nat, i: nat)
    requires CollisionFree(lib) && IsRun(lib, run) && n <= |run.actions| && i < |run.states[n].processes|
    requires run.states[n].processes[i].phase == Ended(Approved)
    ensures var p := run.states[n].processes[i];
            && p.submission.requestId in run.states[n].rows
            && HasRegistration(p.names, run.states[n].rows[p.submission.requestId].content)
  {
    RunStanding(lib, run, n, i);
  }

  /** A request past its challenge has that step behind it. */
  ghost predicate ChallengeBehind(run: Run, n: nat, i: nat)
    requires n <= |run.actions| < |run.states|
  {
    i < |run.states[n].processes| && run.states[n].processes[i].phase == AwaitInsert ==>
      exists c :: 0 <= c < n && run.actions[c] == Challenges(i, Passed)
  }

  lemma {:induction false} ChallengesBehind(lib: Library, run: Run, n: nat, i: nat)
    requires IsRun(lib, run) && n <= |run.actions|
    ensures ChallengeBehind(run, n, i)
  {
    if n > 0 {
      ChallengesBehind(lib, run, n - 1, i);
      assert Happens(lib, run, n - 1);
      if In(run.states[n], i, AwaitInsert) && run.actions[n - 1] != Challenges(i, Passed) {
        assert In(run.states[n - 1], i, AwaitInsert);
        var c :| 0 <= c < n - 1 && run.actions[c] == Challenges(i, Passed);
      }
    }
  }

  /** Every row that was not there from the start was inserted by an authorised, challenged submission. */
  lemma {:induction false} RowsAreAuthorised(lib: Library, run: Run, n: nat, id: string)
    requires CollisionFree(lib) && IsRun(lib, run) && n <= |run.actions|
    requires id in run.states[n].rows && id !in run.states[0].rows
    ensures exists u :: 0 <= u < n && InsertsAuthorised(lib, run, u, id, run.states[n].rows[id])
  {
    if n > 0 {
      EvidenceIsImmutable(lib, run, n - 1, n);
      if id in run.states[n - 1].rows {
        RowsAreAuthorised(lib, run, n - 1, id);
        var u :| 0 <= u < n - 1 && InsertsAuthorised(lib, run, u, id, run.states[n - 1].rows[id]);
        assert SameEvidence(run.states[n - 1].rows[id], run.states[n].rows[id]);
        assert InsertsAuthorised(lib, run, u, id, run.states[n].rows[id]);
      } else {
        assert Happens(lib, run, n - 1);
        ChallengesBehind(lib, run, n - 1, run.actions[n - 1].process);
        RunStanding(lib, run, n - 1, run.actions[n - 1].process);
        assert InsertsAuthorised(lib, run, n - 1, id, run.states[n].rows[id]);
      }
    }
  }
}
