/** The relay's in-memory store: what `store` keeps after any sequence of arrivals. */
module RelayStore {
  import opened Wrappers
  import opened RelayEvents

  /** The three maps of the store. */
  datatype Contents = Contents(
    events: map<string, Event>,
    slots: map<string, string>,
    visibleAt: map<string, int>)

  const EMPTY := Contents(map[], map[], map[])

  datatype Status = Duplicate | Ephemeral | Stored | Invalid | Superseded
  {
    predicate Accepted()
    {
      Duplicate? || Ephemeral? || Stored?
    }
  }

  /** Current holder of a replacement slot. */
  function Holder(s: Contents, key: string): Option<Event>
  {
    if key in s.slots && s.slots[key] != "" && s.slots[key] in s.events
    then Some(s.events[s.slots[key]])
    else None
  }

  function Insert(s: Contents, e: Event, visibleAt: int): Contents
  {
    s.(events := s.events[e.id := e], visibleAt := s.visibleAt[e.id := visibleAt])
  }

  function Replace(s: Contents, e: Event, key: string, visibleAt: int): Contents
  {
    var held := Holder(s, key);
    var cleared := if held.None? then s else
                     s.(events := s.events - {held.value.id}, visibleAt := s.visibleAt - {held.value.id});
    Insert(cleared.(slots := cleared.slots[key := e.id]), e, visibleAt)
  }

  /** One call of `store`: the new maps and the status it reports. */
  function StoreOne(verify: Verifier, s: Contents, e: Event, visibleAt: int): (Contents, Status)
  {
    if !verify(e) then (s, Invalid)
    else if e.id in s.events then (s, Duplicate)
    else if IsEphemeralKind(e.kind) then (s, Ephemeral)
    else
      match ReplacementKey(e)
      case None => (Insert(s, e, visibleAt), Stored)
      case Some(key) =>
        var held := Holder(s, key);
        if held.Some? && !IsNewerReplacement(e, held.value) then (s, Superseded)
        else (Replace(s, e, key, visibleAt), Stored)
  }

  datatype Arrival = Arrival(event: Event, visibleAt: int)

  /** The store after a whole sequence of arrivals. */
  function StoreAll(verify: Verifier, s: Contents, arrivals: seq<Arrival>): Contents
  {
    if arrivals == [] then s
    else
      var before := StoreAll(verify, s, arrivals[..|arrivals| - 1]);
      var last := arrivals[|arrivals| - 1];
      StoreOne(verify, before, last.event, last.visibleAt).0
  }

  function Arrived(arrivals: seq<Arrival>): set<Event>
  {
    set a | a in arrivals :: a.event
  }

  /**
    Which of the events that ever arrived a relay should be holding: the verified ones that are not
    ephemeral and, where the kind is replaceable, that no other arrived event takes precedence over.
   */
  ghost predicate Survives(verify: Verifier, arrived: set<Event>, e: Event)
  {
    && e in arrived && verify(e) && !IsEphemeralKind(e.kind)
    && (ReplacementKey(e).Some? ==>
          forall x :: x in arrived && verify(x) && ReplacementKey(x) == ReplacementKey(e) ==>
            !IsNewerReplacement(x, e))
  }

  /** Stored events sit under their own id, are verified and of a kind the relay keeps. */
  ghost predicate HoldsVerified(verify: Verifier, s: Contents)
  {
    && s.visibleAt.Keys == s.events.Keys
    && forall id :: id in s.events ==>
         s.events[id].id == id && verify(s.events[id]) && !IsEphemeralKind(s.events[id].kind)
  }

  ghost predicate PointsAt(s: Contents, key: string, id: string)
  {
    key in s.slots && s.slots[key] == id
  }

  /** The slot index and the stored replaceable events name each other. */
  ghost predicate SlotsMatch(s: Contents)
  {
    && (forall key :: key in s.slots ==>
          s.slots[key] in s.events && ReplacementKey(s.events[s.slots[key]]) == Some(key))
    && (forall id :: id in s.events && ReplacementKey(s.events[id]).Some? ==>
          PointsAt(s, ReplacementKey(s.events[id]).value, id))
  }

  /** The three maps agree with one another. */
  ghost predicate Consistent(verify: Verifier, s: Contents)
  {
    HoldsVerified(verify, s) && SlotsMatch(s)
  }

  /** An arrival is accounted for: of no concern, held, or not newer than the holder of its slot. */
  ghost predicate AccountedFor(verify: Verifier, s: Contents, x: Event)
  {
    verify(x) ==>
      match ReplacementKey(x)
      case None => IsEphemeralKind(x.kind) || x.id in s.events
      case Some(key) =>
        key in s.slots && s.slots[key] in s.events && !IsNewerReplacement(x, s.events[s.slots[key]])
  }

  ghost predicate Covers(verify: Verifier, s: Contents, arrived: set<Event>)
  {
    && (forall id :: id in s.events ==> s.events[id] in arrived)
    && (forall x :: x in arrived ==> AccountedFor(verify, s, x))
  }

  lemma HeldSlot(verify: Verifier, s: Contents, key: string)
    requires SoundVerifier(verify) && Consistent(verify, s)
    ensures key in s.slots <==> Holder(s, key).Some?
    ensures key in s.slots ==> Holder(s, key).value == s.events[s.slots[key]]
  {
    if key in s.slots {
      assert verify(s.events[s.slots[key]]);
    }
  }

  lemma SameIdSameSlot(verify: Verifier, s: Contents, x: Event)
    requires SoundVerifier(verify) && HoldsVerified(verify, s) && verify(x)
    ensures x.id in s.events ==> ReplacementKey(x) == ReplacementKey(s.events[x.id])
  {
    if x.id in s.events {
      assert x.Unsigned() == s.events[x.id].Unsigned();
    }
  }

  lemma ReplaceKeepsSlots(verify: Verifier, s: Contents, e: Event, key: string, visibleAt: int)
    requires SoundVerifier(verify) && Consistent(verify, s)
    requires e.id !in s.events && ReplacementKey(e) == Some(key)
    ensures SlotsMatch(Replace(s, e, key, visibleAt))
  {
    var t := Replace(s, e, key, visibleAt);
    HeldSlot(verify, s, key);
    forall k | k in t.slots
      ensures t.slots[k] in t.events && ReplacementKey(t.events[t.slots[k]]) == Some(k)
    {
      if k != key {
        assert k in s.slots && PointsAt(s, k, s.slots[k]);
      }
    }
    forall id | id in t.events && ReplacementKey(t.events[id]).Some?
      ensures PointsAt(t, ReplacementKey(t.events[id]).value, id)
    {
      if id != e.id {
        assert PointsAt(s, ReplacementKey(s.events[id]).value, id);
      }
    }
  }

  lemma InsertKeepsSlots(s: Contents, e: Event, visibleAt: int)
    requires SlotsMatch(s)
    requires e.id !in s.events && ReplacementKey(e).None?
    ensures SlotsMatch(Insert(s, e, visibleAt))
  {
    var t := Insert(s, e, visibleAt);
    forall id | id in t.events && ReplacementKey(t.events[id]).Some?
      ensures PointsAt(t, ReplacementKey(t.events[id]).value, id)
    {
      assert PointsAt(s, ReplacementKey(s.events[id]).value, id);
    }
  }

  lemma StoreOneHoldsVerified(verify: Verifier, s: Contents, e: Event, visibleAt: int)
    requires HoldsVerified(verify, s)
    ensures HoldsVerified(verify, StoreOne(verify, s, e, visibleAt).0)
  {
  }

  /** Index and visibility stay consistent through every single call. */
  lemma StoreOneConsistent(verify: Verifier, s: Contents, e: Event, visibleAt: int)
    requires SoundVerifier(verify) && Consistent(verify, s)
    ensures Consistent(verify, StoreOne(verify, s, e, visibleAt).0)
  {
    StoreOneHoldsVerified(verify, s, e, visibleAt);
    if StoreOne(verify, s, e, visibleAt).1 == Stored {
      match ReplacementKey(e) {
        case None => InsertKeepsSlots(s, e, visibleAt);
        case Some(key) => ReplaceKeepsSlots(verify, s, e, key, visibleAt);
      }
    }
  }

  /** A replacement loses no earlier arrival: the new holder precedes whatever the old one did. */
  lemma ReplaceStillAccounts(verify: Verifier, s: Contents, e: Event, key: string, visibleAt: int, x: Event)
    requires SoundVerifier(verify) && Consistent(verify, s)
    requires verify(e) && e.id !in s.events && ReplacementKey(e) == Some(key)
    requires Holder(s, key).Some? ==> IsNewerReplacement(e, Holder(s, key).value)
    requires AccountedFor(verify, s, x)
    ensures AccountedFor(verify, Replace(s, e, key, visibleAt), x)
  {
    HeldSlot(verify, s, key);
    if verify(x) {
      match ReplacementKey(x) {
        case None =>
          SameIdSameSlot(verify, s, x);
        case Some(other) =>
          if other == key {
            NewerIsStrictOrder(x, e, s.events[s.slots[key]]);
            NewerIsStrictOrder(e, x, s.events[s.slots[key]]);
          }
      }
    }
  }

  lemma StoreOneStillAccounts(verify: Verifier, s: Contents, e: Event, visibleAt: int, x: Event)
    requires SoundVerifier(verify) && Consistent(verify, s)
    requires AccountedFor(verify, s, x)
    ensures AccountedFor(verify, StoreOne(verify, s, e, visibleAt).0, x)
  {
    if StoreOne(verify, s, e, visibleAt).1 == Stored {
      match ReplacementKey(e) {
        case None =>
        case Some(key) =>
          HeldSlot(verify, s, key);
          ReplaceStillAccounts(verify, s, e, key, visibleAt, x);
      }
    }
  }

  lemma StoreOneAccountsForNew(verify: Verifier, s: Contents, e: Event, visibleAt: int)
    requires SoundVerifier(verify) && Consistent(verify, s)
    ensures AccountedFor(verify, StoreOne(verify, s, e, visibleAt).0, e)
  {
    NewerIsStrictOrder(e, e, e);
    if verify(e) && ReplacementKey(e).Some? {
      HeldSlot(verify, s, ReplacementKey(e).value);
      SameIdSameSlot(verify, s, e);
      if e.id in s.events {
        assert PointsAt(s, ReplacementKey(e).value, e.id);
      }
    }
  }

  lemma StoreOneCovers(verify: Verifier, s: Contents, e: Event, visibleAt: int, arrived: set<Event>)
    requires SoundVerifier(verify) && Consistent(verify, s) && Covers(verify, s, arrived)
    ensures Covers(verify, StoreOne(verify, s, e, visibleAt).0, arrived + {e})
  {
    var t := StoreOne(verify, s, e, visibleAt).0;
    forall x | x in arrived + {e} ensures AccountedFor(verify, t, x) {
      if x in arrived {
        StoreOneStillAccounts(verify, s, e, visibleAt, x);
      } else {
        StoreOneAccountsForNew(verify, s, e, visibleAt);
      }
    }
  }

  /** Both invariants hold after every sequence of arrivals at an empty store. */
  lemma {:induction false} StoreAllInvariant(verify: Verifier, arrivals: seq<Arrival>)
    requires SoundVerifier(verify)
    ensures Consistent(verify, StoreAll(verify, EMPTY, arrivals))
    ensures Covers(verify, StoreAll(verify, EMPTY, arrivals), Arrived(arrivals))
  {
    if arrivals != [] {
      var n := |arrivals| - 1;
      StoreAllInvariant(verify, arrivals[..n]);
      var before := StoreAll(verify, EMPTY, arrivals[..n]);
      StoreOneConsistent(verify, before, arrivals[n].event, arrivals[n].visibleAt);
      StoreOneCovers(verify, before, arrivals[n].event, arrivals[n].visibleAt, Arrived(arrivals[..n]));
      assert arrivals == arrivals[..n] + [arrivals[n]];
      assert Arrived(arrivals) == Arrived(arrivals[..n]) + {arrivals[n].event};
    }
  }

  lemma HeldEventSurvives(verify: Verifier, s: Contents, arrived: set<Event>, id: string)
    requires Consistent(verify, s) && Covers(verify, s, arrived)
    requires id in s.events
    ensures Survives(verify, arrived, s.events[id]) && s.events[id].id == id
  {
    var e := s.events[id];
    if ReplacementKey(e).Some? {
      assert PointsAt(s, ReplacementKey(e).value, id);
      forall x | x in arrived && verify(x) && ReplacementKey(x) == ReplacementKey(e)
        ensures !IsNewerReplacement(x, e)
      {
        assert AccountedFor(verify, s, x);
      }
    }
  }

  lemma SurvivorIsHeld(verify: Verifier, s: Contents, arrived: set<Event>, e: Event)
    requires SoundVerifier(verify) && Consistent(verify, s) && Covers(verify, s, arrived)
    requires Survives(verify, arrived, e)
    ensures e.id in s.events && s.events[e.id].Unsigned() == e.Unsigned()
    ensures ReplacementKey(e).Some? ==> PointsAt(s, ReplacementKey(e).value, e.id)
  {
    assert AccountedFor(verify, s, e);
    if ReplacementKey(e).Some? {
      var holder := s.events[s.slots[ReplacementKey(e).value]];
      assert holder in arrived && verify(holder) && ReplacementKey(holder) == ReplacementKey(e);
      NewerIsStrictOrder(holder, e, e);
    }
  }

  /** Some surviving event has this id. */
  ghost predicate SurvivesAs(verify: Verifier, arrived: set<Event>, id: string)
  {
    exists e :: Survives(verify, arrived, e) && e.id == id
  }

  /** Some surviving event has this id and competes for this slot. */
  ghost predicate SurvivesIn(verify: Verifier, arrived: set<Event>, key: string, id: string)
  {
    exists e :: Survives(verify, arrived, e) && e.id == id && ReplacementKey(e) == Some(key)
  }

  /**
    What a store is after a set of arrivals, in absolute terms: the held ids are exactly the ids of
    the surviving events, each held body is the survivor's, each slot points at its survivor, and
    every slot some verified arrival competed for has one.
   */
  ghost predicate HoldsExactlyTheSurvivors(verify: Verifier, s: Contents, arrived: set<Event>)
  {
    && (forall id :: id in s.events <==> SurvivesAs(verify, arrived, id))
    && (forall e :: Survives(verify, arrived, e) ==>
          e.id in s.events && s.events[e.id].Unsigned() == e.Unsigned())
    && (forall key, id :: PointsAt(s, key, id) <==> SurvivesIn(verify, arrived, key, id))
    && (forall x :: x in arrived && verify(x) && ReplacementKey(x).Some? ==>
          ReplacementKey(x).value in s.slots)
  }

  lemma HeldIdsAreTheSurvivors(verify: Verifier, s: Contents, arrived: set<Event>)
    requires SoundVerifier(verify) && Consistent(verify, s) && Covers(verify, s, arrived)
    ensures forall id :: id in s.events <==> SurvivesAs(verify, arrived, id)
    ensures forall e :: Survives(verify, arrived, e) ==>
              e.id in s.events && s.events[e.id].Unsigned() == e.Unsigned()
  {
    forall e | Survives(verify, arrived, e)
      ensures e.id in s.events && s.events[e.id].Unsigned() == e.Unsigned()
    {
      SurvivorIsHeld(verify, s, arrived, e);
    }
    forall id | id in s.events ensures SurvivesAs(verify, arrived, id) {
      HeldEventSurvives(verify, s, arrived, id);
    }
  }

  lemma SlotsAreTheSurvivors(verify: Verifier, s: Contents, arrived: set<Event>)
    requires SoundVerifier(verify) && Consistent(verify, s) && Covers(verify, s, arrived)
    ensures forall key, id :: PointsAt(s, key, id) <==> SurvivesIn(verify, arrived, key, id)
  {
    forall e | Survives(verify, arrived, e)
      ensures ReplacementKey(e).Some? ==> PointsAt(s, ReplacementKey(e).value, e.id)
    {
      SurvivorIsHeld(verify, s, arrived, e);
    }
    forall key, id | PointsAt(s, key, id) ensures SurvivesIn(verify, arrived, key, id) {
      HeldEventSurvives(verify, s, arrived, id);
    }
  }

  lemma CoveredIsExact(verify: Verifier, s: Contents, arrived: set<Event>)
    requires SoundVerifier(verify) && Consistent(verify, s) && Covers(verify, s, arrived)
    ensures HoldsExactlyTheSurvivors(verify, s, arrived)
  {
    HeldIdsAreTheSurvivors(verify, s, arrived);
    SlotsAreTheSurvivors(verify, s, arrived);
    forall x | x in arrived && verify(x) && ReplacementKey(x).Some?
      ensures ReplacementKey(x).value in s.slots
    {
      assert AccountedFor(verify, s, x);
    }
  }

  /** Convergence in absolute terms, for any sequence of arrivals at an empty store. */
  lemma StoreKeepsExactlyTheSurvivors(verify: Verifier, arrivals: seq<Arrival>)
    requires SoundVerifier(verify)
    ensures Consistent(verify, StoreAll(verify, EMPTY, arrivals))
    ensures HoldsExactlyTheSurvivors(verify, StoreAll(verify, EMPTY, arrivals), Arrived(arrivals))
  {
    StoreAllInvariant(verify, arrivals);
    CoveredIsExact(verify, StoreAll(verify, EMPTY, arrivals), Arrived(arrivals));
  }

  /** Two stores hold the same events, up to signatures, and the same slots. */
  ghost predicate SameHoldings(a: Contents, b: Contents)
  {
    && a.events.Keys == b.events.Keys
    && a.slots == b.slots
    && forall id :: id in a.events && id in b.events ==> a.events[id].Unsigned() == b.events[id].Unsigned()
  }

  lemma IndexDeterminesSlots(a: Contents, b: Contents)
    requires forall key, id :: PointsAt(a, key, id) <==> PointsAt(b, key, id)
    ensures a.slots == b.slots
  {
    forall key | key in a.slots || key in b.slots
      ensures key in a.slots && key in b.slots && a.slots[key] == b.slots[key]
    {
      if key in a.slots {
        assert PointsAt(a, key, a.slots[key]);
      } else {
        assert PointsAt(b, key, b.slots[key]);
      }
    }
  }

  lemma SurvivorsDetermineHoldings(verify: Verifier, a: Contents, b: Contents, arrived: set<Event>)
    requires HoldsExactlyTheSurvivors(verify, a, arrived)
    requires HoldsExactlyTheSurvivors(verify, b, arrived)
    ensures SameHoldings(a, b)
  {
    assert forall id :: id in a.events <==> id in b.events;
    IndexDeterminesSlots(a, b);
    forall id | id in a.events ensures a.events[id].Unsigned() == b.events[id].Unsigned() {
      var e :| Survives(verify, arrived, e) && e.id == id;
    }
  }

  /** Convergence: any reordering or repetition of arrivals gives the same store. */
  lemma StoreConverges(verify: Verifier, left: seq<Arrival>, right: seq<Arrival>)
    requires SoundVerifier(verify)
    requires Arrived(left) == Arrived(right)
    ensures SameHoldings(StoreAll(verify, EMPTY, left), StoreAll(verify, EMPTY, right))
  {
    StoreKeepsExactlyTheSurvivors(verify, left);
    StoreKeepsExactlyTheSurvivors(verify, right);
    SurvivorsDetermineHoldings(verify, StoreAll(verify, EMPTY, left), StoreAll(verify, EMPTY, right),
                               Arrived(left));
  }

  /** Sending anything that already arrived changes nothing, not even its visibility time. */
  lemma ResendingChangesNothing(verify: Verifier, arrivals: seq<Arrival>, e: Event, visibleAt: int)
    requires SoundVerifier(verify)
    requires e in Arrived(arrivals)
    ensures var s := StoreAll(verify, EMPTY, arrivals);
            StoreOne(verify, s, e, visibleAt).0 == s && StoreOne(verify, s, e, visibleAt).1 != Stored
  {
    var s := StoreAll(verify, EMPTY, arrivals);
    StoreAllInvariant(verify, arrivals);
    if verify(e) && ReplacementKey(e).Some? {
      HeldSlot(verify, s, ReplacementKey(e).value);
    }
  }

  // ----- when convergence covers the signatures -----

  /** No two surviving arrivals share an id and differ. */
  ghost predicate SurvivorsAreUnique(verify: Verifier, arrived: set<Event>)
  {
    forall a, b :: Survives(verify, arrived, a) && Survives(verify, arrived, b) && a.id == b.id ==> a == b
  }

  ghost predicate SameEvents(verify: Verifier, left: seq<Arrival>, right: seq<Arrival>)
  {
    StoreAll(verify, EMPTY, left).events == StoreAll(verify, EMPTY, right).events
  }

  /** Every order of these arrivals, with any repetition, ends with the same events, signatures included. */
  ghost predicate OrdersAgree(verify: Verifier, arrivals: seq<Arrival>)
  {
    forall left, right :: Arrived(left) == Arrived(arrivals) && Arrived(right) == Arrived(arrivals) ==>
      SameEvents(verify, left, right)
  }

  /** A held event that nothing outranks stays, as the copy it is. */
  lemma StoreOneKeeps(verify: Verifier, s: Contents, e: Event, visibleAt: int, a: Event)
    requires Consistent(verify, s) && a.id in s.events && s.events[a.id] == a
    requires verify(e) && ReplacementKey(a).Some? && ReplacementKey(e) == ReplacementKey(a) ==>
               !IsNewerReplacement(e, a)
    ensures var t := StoreOne(verify, s, e, visibleAt).0; a.id in t.events && t.events[a.id] == a
  {
    if verify(e) && ReplacementKey(e).Some? && Holder(s, ReplacementKey(e).value) == Some(a) {
      assert ReplacementKey(a) == ReplacementKey(e);
    }
  }

  ghost predicate Keeps(verify: Verifier, arrivals: seq<Arrival>, a: Event)
  {
    var s := StoreAll(verify, EMPTY, arrivals); a.id in s.events && s.events[a.id] == a
  }

  lemma FirstCopyIsKept(verify: Verifier, first: Arrival)
    requires verify(first.event) && !IsEphemeralKind(first.event.kind)
    ensures Keeps(verify, [first], first.event)
  {
    assert [first][..0] == [] && StoreAll(verify, EMPTY, []) == EMPTY;
  }

  lemma SurvivorIsKept(verify: Verifier, before: seq<Arrival>, last: Arrival, arrived: set<Event>, a: Event)
    requires SoundVerifier(verify) && Survives(verify, arrived, a) && last.event in arrived
    requires Keeps(verify, before, a)
    ensures Keeps(verify, before + [last], a)
  {
    StoreAllInvariant(verify, before);
    StoreOneKeeps(verify, StoreAll(verify, EMPTY, before), last.event, last.visibleAt, a);
    assert (before + [last])[..|before|] == before;
  }

  lemma {:induction false} FirstCopyStays(verify: Verifier, first: Arrival, rest: seq<Arrival>, arrived: set<Event>)
    requires SoundVerifier(verify) && Survives(verify, arrived, first.event)
    requires forall a :: a in rest ==> a.event in arrived
    ensures Keeps(verify, [first] + rest, first.event)
  {
    if rest == [] {
      assert [first] + rest == [first];
      FirstCopyIsKept(verify, first);
    } else {
      var n := |rest| - 1;
      FirstCopyStays(verify, first, rest[..n], arrived);
      SurvivorIsKept(verify, [first] + rest[..n], rest[n], arrived, first.event);
      assert [first] + rest == [first] + rest[..n] + [rest[n]];
    }
  }

  lemma FirstCopyWins(verify: Verifier, arrivals: seq<Arrival>, a: Event) returns (order: seq<Arrival>)
    requires SoundVerifier(verify) && Survives(verify, Arrived(arrivals), a)
    ensures Arrived(order) == Arrived(arrivals)
    ensures Keeps(verify, order, a)
  {
    order := [Arrival(a, 0)] + arrivals;
    FirstCopyStays(verify, Arrival(a, 0), arrivals, Arrived(arrivals));
    forall e ensures e in Arrived(order) <==> e in Arrived(arrivals) {
      if e in Arrived(arrivals) {
        var x :| x in arrivals && x.event == e;
        assert x in order;
      }
    }
  }

  lemma UniqueHoldingsAgree(verify: Verifier, s: Contents, t: Contents, arrived: set<Event>)
    requires Consistent(verify, s) && Covers(verify, s, arrived) && Consistent(verify, t) && Covers(verify, t, arrived)
    requires SurvivorsAreUnique(verify, arrived) && s.events.Keys == t.events.Keys
    ensures s.events == t.events
  {
    forall id | id in s.events ensures s.events[id] == t.events[id] {
      HeldEventSurvives(verify, s, arrived, id);
      HeldEventSurvives(verify, t, arrived, id);
    }
  }

  lemma UniqueSurvivorsAgree(verify: Verifier, left: seq<Arrival>, right: seq<Arrival>)
    requires SoundVerifier(verify) && Arrived(left) == Arrived(right)
    requires SurvivorsAreUnique(verify, Arrived(left))
    ensures SameEvents(verify, left, right)
  {
    StoreAllInvariant(verify, left);
    StoreAllInvariant(verify, right);
    StoreConverges(verify, left, right);
    UniqueHoldingsAgree(verify, StoreAll(verify, EMPTY, left), StoreAll(verify, EMPTY, right), Arrived(left));
  }

  /** Convergence covers the signatures exactly when no two surviving arrivals share an id and differ. */
  lemma SignaturesConvergeIff(verify: Verifier, arrivals: seq<Arrival>)
    requires SoundVerifier(verify)
    ensures OrdersAgree(verify, arrivals) <==> SurvivorsAreUnique(verify, Arrived(arrivals))
  {
    if SurvivorsAreUnique(verify, Arrived(arrivals)) {
      forall left, right | Arrived(left) == Arrived(arrivals) && Arrived(right) == Arrived(arrivals)
        ensures SameEvents(verify, left, right)
      {
        UniqueSurvivorsAgree(verify, left, right);
      }
    }
    forall a, b | OrdersAgree(verify, arrivals) && Survives(verify, Arrived(arrivals), a) &&
                  Survives(verify, Arrived(arrivals), b) && a.id == b.id
      ensures a == b
    {
      var left := FirstCopyWins(verify, arrivals, a);
      var right := FirstCopyWins(verify, arrivals, b);
      assert SameEvents(verify, left, right);
    }
  }

  const ID := seq(64, i => 'a')
  const FIRST_COPY := Event(ID, ID, 1, 1, [], "", "first")
  const SECOND_COPY := FIRST_COPY.(sig := "second")

  function EitherCopy(): Verifier
  {
    e => e == FIRST_COPY || e == SECOND_COPY
  }

  /**
    Two valid copies of one event that differ in the signature alone: the copy that arrives first is
    the one that stays, so orders of their arrivals need not agree.
   */
  lemma SignatureDependsOnOrder(t: int)
    ensures var verify, a, b := EitherCopy(), FIRST_COPY, SECOND_COPY;
            && SoundVerifier(verify) && verify(a) && verify(b) && a.id == b.id && a.Unsigned() == b.Unsigned()
            && StoreAll(verify, EMPTY, [Arrival(a, t), Arrival(b, t)]).events == map[a.id := a]
            && StoreAll(verify, EMPTY, [Arrival(b, t), Arrival(a, t)]).events == map[a.id := b]
            && !OrdersAgree(verify, [Arrival(a, t), Arrival(b, t)])
  {
    var verify, a, b := EitherCopy(), FIRST_COPY, SECOND_COPY;
    var ab, ba := [Arrival(a, t), Arrival(b, t)], [Arrival(b, t), Arrival(a, t)];
    assert ab[..1] == [Arrival(a, t)] && ba[..1] == [Arrival(b, t)];
    assert [Arrival(a, t)][..0] == [] && [Arrival(b, t)][..0] == [];
    assert StoreAll(verify, EMPTY, ab[..1]).events == map[ID := a];
    assert StoreAll(verify, EMPTY, ba[..1]).events == map[ID := b];
    assert ab[0].event in Arrived(ab) && ab[1].event in Arrived(ab);
    assert Survives(verify, Arrived(ab), a) && Survives(verify, Arrived(ab), b);
    assert a.sig != b.sig;
    SignaturesConvergeIff(verify, ab);
  }
}
