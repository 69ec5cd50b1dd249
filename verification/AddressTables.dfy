/** The gateway's three tables as one mutable database: a method for each SQL statement it runs. */
module AddressTables {
  import opened Wrappers
  import M = AddressManagement
  import R = AddressRequests

  class Database {
    var observations: M.Observations
    var claims: M.Claims
    var requests: R.Rows

    constructor ()
      ensures observations == map[] && claims == map[] && requests == map[]
    {
      observations, claims, requests := map[], map[], map[];
    }

    method SelectObservation(identity: string) returns (row: Option<M.Observation>)
      ensures row == if identity in observations then Some(observations[identity]) else None
    {
      if identity in observations {
        return Some(observations[identity]);
      }
      return None;
    }

    method DeleteOldObservations(before: int)
      modifies this`observations
      ensures observations == M.Prune(old(observations), before)
    {
      observations := map identity | identity in observations && observations[identity].observedAt >= before
        :: observations[identity];
    }

    method UpsertObservation(identity: string, row: M.Observation)
      modifies this`observations
      ensures observations == M.Upsert(old(observations), identity, row)
    {
      if identity !in observations || observations[identity].observedAt <= row.observedAt {
        observations := observations[identity := row];
      }
    }

    /** INSERT OR IGNORE: `changes` is what the gateway reads to learn whether the claim is its own. */
    method InsertClaim(key: M.ClaimKey, claim: M.Claim) returns (changes: nat)
      modifies this`claims
      ensures (claims, changes) == M.InsertClaim(old(claims), key, claim)
      ensures changes == 1 <==> key !in old(claims)
    {
      if key in claims {
        return 0;
      }
      claims := claims[key := claim];
      return 1;
    }

    method SelectRequest(id: string) returns (row: Option<R.Row>)
      ensures row == if id in requests then Some(requests[id]) else None
    {
      if id in requests {
        return Some(requests[id]);
      }
      return None;
    }

    method InsertRequest(id: string, row: R.Row)
      modifies this`requests
      ensures requests == R.InsertRequest(old(requests), id, row)
      ensures R.RowsKeep(old(requests), requests)
    {
      if id !in requests {
        requests := requests[id := row];
      }
    }

    method SetStatus(id: string, status: R.Status)
      modifies this`requests
      ensures requests == R.SetStatus(old(requests), id, status)
      ensures R.RowsKeep(old(requests), requests)
    {
      if id in requests {
        requests := requests[id := requests[id].(status := status)];
      }
    }
  }
}
