/**
  The gateway's two handlers over the database: each method is one stretch of a handler between two
  awaits, runs at most one SQL statement, and moves the state as the protocol says.
 */
module AddressGateway {
  import opened Wrappers
  import opened AddressRegistry
  import opened AddressTables
  import M = AddressManagement
  import R = AddressRequests

  /** The management handler: requests in flight over the observation and claim tables. */
  class ManagementGateway {
    const lib: M.Library
    const db: Database
    var processes: seq<M.Process>

    function State(): M.Gateway
      reads this, db
    {
      M.Gateway(db.observations, db.claims, processes)
    }

    constructor (lib: M.Library, db: Database)
      ensures this.lib == lib && this.db == db && processes == []
    {
      this.lib, this.db, processes := lib, db, [];
    }

    method Suspend(process: nat, phase: M.Phase)
      requires process < |processes|
      modifies this`processes
      ensures State() == M.Move(old(State()), process, phase)
    {
      processes := processes[process := processes[process].(phase := phase)];
    }

    /** The account proof and the provider switch; what is left to do is the claim. */
    static method ProveOwner(names: seq<ApprovedName>, r: M.Request, now: int, qualified: bool) returns (phase: M.Phase)
      ensures phase == M.BeforeClaim(names, r, now, qualified)
    {
      var approval := FindApproval(names, r.name, r.identity);
      if approval.None? || !M.ValidAccountProof(r.account, approval.value.ownerPubkey, now) {
        return M.Ended;
      }
      if !qualified {
        return M.Ended;
      }
      return M.AwaitClaim;
    }

    method OnRequest(r: M.Request, names: seq<ApprovedName>, now: int, qualified: bool, limited: bool)
      modifies this`processes
      ensures State() == M.Next(lib, old(State()), M.Arrives(r, names, now, qualified, limited))
    {
      var phase := M.Ended;
      if M.Screen(lib, names, r, now).Success? {
        if r.operation == M.Register {
          phase := M.AwaitObservation;
        } else if r.operation.IsMutation() {
          phase := ProveOwner(names, r, now, qualified);
        } else if r.operation == M.Available || !limited {
          phase := M.AwaitForward;
        }
      }
      processes := processes + [M.Process(r, names, now, phase, false, false)];
    }

    method OnObservation(process: nat, qualified: bool)
      requires M.Enabled(State(), M.SelectsObservation(process, qualified))
      modifies this`processes
      ensures State() == M.Next(lib, old(State()), M.SelectsObservation(process, qualified))
    {
      var p := processes[process];
      var approval := FindApproval(p.names, p.request.name, p.request.identity);
      var observed := db.SelectObservation(p.request.identity);
      var phase := M.Ended;
      if observed.Some? && approval.Some? && M.Admits(observed.value, p.request.name, approval.value, p.now) {
        phase := ProveOwner(p.names, p.request, p.now, qualified);
      }
      Suspend(process, phase);
    }

    method OnClaim(process: nat)
      requires M.Enabled(State(), M.InsertsClaim(process))
      modifies this`processes, db`claims
      ensures State() == M.Next(lib, old(State()), M.InsertsClaim(process))
    {
      var p := processes[process];
      var changes := db.InsertClaim(M.KeyOf(lib, p.request),
                                    M.Claim(p.request.identity, p.request.timestamp + M.CLAIM_SECONDS));
      if changes == 1 {
        processes := processes[process := p.(phase := M.AwaitForward, claimed := true)];
      } else {
        Suspend(process, M.Ended);
      }
    }

    method OnForward(process: nat)
      requires M.Enabled(State(), M.Forwards(process))
      modifies this`processes
      ensures State() == M.Next(lib, old(State()), M.Forwards(process))
    {
      processes := processes[process := processes[process].(phase := M.AwaitReply, forwarded := true)];
    }

    method OnReply(process: nat, reply: M.Reply)
      requires M.Enabled(State(), M.Receives(process, reply))
      modifies this`processes
      ensures State() == M.Next(lib, old(State()), M.Receives(process, reply))
    {
      var p := processes[process];
      var observed := M.Observed(reply);
      if p.request.operation == M.Recover && observed.Some? && M.IsRegistered(p.names, p.request.identity) {
        Suspend(process, M.AwaitPrune(observed.value));
      } else {
        Suspend(process, M.Ended);
      }
    }

    method OnPrune(process: nat)
      requires M.Enabled(State(), M.Prunes(process))
      modifies this`processes, db`observations
      ensures State() == M.Next(lib, old(State()), M.Prunes(process))
    {
      var p := processes[process];
      db.DeleteOldObservations(p.now - M.DAY_SECONDS);
      Suspend(process, M.AwaitUpsert(p.phase.observed));
    }

    method OnUpsert(process: nat)
      requires M.Enabled(State(), M.Upserts(process))
      modifies this`processes, db`observations
      ensures State() == M.Next(lib, old(State()), M.Upserts(process))
    {
      var p := processes[process];
      db.UpsertObservation(p.request.identity, M.Observation(p.phase.observed, p.now));
      Suspend(process, M.Ended);
    }

    method OnAbort(process: nat)
      requires M.Enabled(State(), M.Aborts(process))
      modifies this`processes
      ensures State() == M.Next(lib, old(State()), M.Aborts(process))
    {
      Suspend(process, M.Ended);
    }
  }

  /** The name-request handler: submissions in flight over the request table. */
  class RequestGateway {
    const lib: R.Library
    const db: Database
    var processes: seq<R.Process>

    function State(): R.Gateway
      reads this, db
    {
      R.Gateway(db.requests, processes)
    }

    constructor (lib: R.Library, db: Database)
      ensures this.lib == lib && this.db == db && processes == []
    {
      this.lib, this.db, processes := lib, db, [];
    }

    method Suspend(process: nat, phase: R.Phase)
      requires process < |processes|
      modifies this`processes
      ensures State() == R.Move(old(State()), process, phase)
    {
      processes := processes[process := processes[process].(phase := phase)];
    }

    method OnSubmission(x: R.Submission, names: seq<ApprovedName>, now: int)
      modifies this`processes
      ensures State() == R.Next(lib, old(State()), R.Arrives(x, names, now))
    {
      var phase := R.AwaitPrevious;
      if !R.Authorised(lib, x, now) {
        phase := R.Ended(R.Unauthorised);
      }
      processes := processes + [R.Process(x, names, now, phase)];
    }

    method OnPrevious(process: nat)
      requires R.Enabled(State(), R.SelectsPrevious(process))
      modifies this`processes
      ensures State() == R.Next(lib, old(State()), R.SelectsPrevious(process))
    {
      var p := processes[process];
      var previous := db.SelectRequest(p.submission.requestId);
      if previous.Some? && !R.Matches(lib, previous.value, p.submission) {
        Suspend(process, R.Ended(R.Conflict));
      } else if previous.Some? {
        var approved := R.HasRegistration(p.names, p.submission.content);
        Suspend(process, R.Ended(if approved then R.Approved else R.Stored(previous.value.status)));
      } else if p.submission.statusPath {
        Suspend(process, R.Ended(R.NotReceived));
      } else {
        Suspend(process, R.AwaitChallenge);
      }
    }

    method OnChallenge(process: nat, outcome: R.Challenge)
      requires R.Enabled(State(), R.Challenges(process, outcome))
      modifies this`processes
      ensures State() == R.Next(lib, old(State()), R.Challenges(process, outcome))
    {
      match outcome
      case Passed => Suspend(process, R.AwaitInsert);
      case NotConfigured => Suspend(process, R.Ended(R.Unavailable));
      case Limited => Suspend(process, R.Ended(R.RateLimited));
      case Failed => Suspend(process, R.Ended(R.ChallengeFailed));
    }

    method Insert(process: nat)
      requires process < |processes|
      modifies db`requests
      ensures db.requests == R.Insertion(lib, old(db.requests), processes[process])
    {
      var p := processes[process];
      if R.Authority(p.submission).Some? {
        db.InsertRequest(p.submission.requestId, R.NewRow(lib, p.submission, p.now));
      }
    }

    method OnInsert(process: nat)
      requires R.Enabled(State(), R.Inserts(process))
      modifies this`processes, db`requests
      ensures State() == R.Next(lib, old(State()), R.Inserts(process))
    {
      Insert(process);
      Suspend(process, R.AwaitSaved);
    }

    /** The database reports a failure, whether or not it wrote. */
    method OnInsertFailure(process: nat, written: bool)
      requires R.Enabled(State(), R.InsertFails(process, written))
      modifies this`processes, db`requests
      ensures State() == R.Next(lib, old(State()), R.InsertFails(process, written))
    {
      if written {
        Insert(process);
      }
      Suspend(process, R.Ended(R.Unavailable));
    }

    method OnSaved(process: nat)
      requires R.Enabled(State(), R.SelectsSaved(process))
      modifies this`processes
      ensures State() == R.Next(lib, old(State()), R.SelectsSaved(process))
    {
      var x := processes[process].submission;
      var saved := db.SelectRequest(x.requestId);
      if saved.Some? && saved.value.requestHash == lib.hash(x.content) &&
         (!x.IsReplay() || saved.value.signedPayload == x.raw)
      {
        Suspend(process, R.Ended(R.Accepted));
      } else {
        Suspend(process, R.Ended(R.Conflict));
      }
    }

    method OnAbort(process: nat)
      requires R.Enabled(State(), R.Aborts(process))
      modifies this`processes
      ensures State() == R.Next(lib, old(State()), R.Aborts(process))
    {
      Suspend(process, R.Ended(R.Unavailable));
    }

    /** An operator decides about a request, by hand in the database. */
    method OnDecision(requestId: string, status: R.Status)
      modifies db`requests
      ensures State() == R.Next(lib, old(State()), R.Decides(requestId, status))
    {
      db.SetStatus(requestId, status);
    }
  }
}
