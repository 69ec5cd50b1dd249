/** The relay's store class: its methods are proved against the store and query specifications. */
module EventStore {
  import opened Wrappers
  import opened RelayEvents
  import opened RelayStore
  import opened RelayQuery
  import opened Sequences

  class RelayEventStore {
    const verify: Verifier
    var eventsById: map<string, Event>
    var replacementIds: map<string, string>
    var visibleAtById: map<string, int>

    function Contents(): Contents
      reads this
    {
      RelayStore.Contents.Contents(eventsById, replacementIds, visibleAtById)
    }

    constructor (verify: Verifier)
      ensures this.verify == verify && Contents() == EMPTY
    {
      this.verify := verify;
      eventsById, replacementIds, visibleAtById := map[], map[], map[];
    }

    /** `now` is the clock reading the call makes when it stores. */
    method Store(event: Event, visibilityDelayMs: int, now: int) returns (status: Status)
      modifies this
      ensures (Contents(), status) == StoreOne(verify, old(Contents()), event, now + visibilityDelayMs)
    {
      if !verify(event) { return Invalid; }
      if event.id in eventsById { return Duplicate; }
      if IsEphemeralKind(event.kind) { return Ephemeral; }
      var key := ReplacementKey(event);
      if key.Some? {
        var current: Option<Event> := None;
        if key.value in replacementIds {
          var currentId := replacementIds[key.value];
          if currentId != "" && currentId in eventsById {
            current := Some(eventsById[currentId]);
          }
        }
        if current.Some? && !IsNewerReplacement(event, current.value) {
          return Superseded;
        }
        if current.Some? {
          eventsById := eventsById - {current.value.id};
          visibleAtById := visibleAtById - {current.value.id};
        }
        replacementIds := replacementIds[key.value := event.id];
      }
      eventsById := eventsById[event.id := event];
      visibleAtById := visibleAtById[event.id := now + visibilityDelayMs];
      return Stored;
    }

    /** Lists the values of `eventsById` that are visible when the clock is read for them, in any order. */
    method VisibleEvents(clock: Clock) returns (visible: seq<Event>)
      requires forall id :: id in eventsById ==> eventsById[id].id == id
      ensures NoRepeatedIds(visible)
      ensures Elements(visible) == VisibleAt(Contents(), clock)
    {
      visible := [];
      ghost var done: set<string> := {};
      var rest := eventsById.Keys;
      while rest != {}
        invariant done + rest == eventsById.Keys && done !! rest
        invariant forall i :: 0 <= i < |visible| ==> visible[i].id in done && eventsById[visible[i].id] == visible[i]
        invariant NoRepeatedIds(visible)
        invariant forall e :: e in visible <==>
                    e.id in done && eventsById[e.id] == e && e in VisibleAt(Contents(), clock)
        decreases rest
      {
        var id :| id in rest;
        var at := if id in visibleAtById then visibleAtById[id] else 0;
        ghost var before := visible;
        if at <= clock(id) {
          visible := visible + [eventsById[id]];
        }
        rest, done := rest - {id}, done + {id};
      }
    }

    /** The matching visible events of one filter, ranked and cut to its limit. */
    static method RankedMatches(filter: Filter, visible: seq<Event>) returns (limited: seq<Event>)
      requires NoRepeatedIds(visible)
      ensures forall e :: e in limited <==> Picks(filter, Elements(visible), e)
    {
      var matches: seq<Event> := [];
      for i := 0 to |visible|
        invariant NoRepeatedIds(matches)
        invariant Elements(matches) == Matching(filter, Elements(visible[..i]))
      {
        assert visible[..i + 1] == visible[..i] + [visible[i]];
        ElementsAppend(visible[..i], visible[i]);
        if Matches(visible[i], filter) {
          forall e | e in matches ensures e.id != visible[i].id {
            assert e in Elements(matches) && e in visible[..i];
          }
          ElementsAppend(matches, visible[i]);
          matches := matches + [visible[i]];
        }
      }
      assert visible[..|visible|] == visible;
      SortRanks(matches);
      limited := Take(Sort(matches), filter.limit);
      LimitedRanking(filter, Elements(visible), Sort(matches));
    }

    /** `deduped.set(event.id, event)` for each event of one filter. */
    static method AddNew(deduped: seq<Event>, more: seq<Event>, ghost visible: seq<Event>) returns (all: seq<Event>)
      requires NoRepeatedIds(visible) && NoRepeatedIds(deduped)
      requires Elements(deduped) <= Elements(visible) && Elements(more) <= Elements(visible)
      ensures NoRepeatedIds(all)
      ensures Elements(all) == Elements(deduped) + Elements(more)
    {
      all := deduped;
      for i := 0 to |more|
        invariant NoRepeatedIds(all)
        invariant Elements(all) == Elements(deduped) + Elements(more[..i])
      {
        assert more[..i + 1] == more[..i] + [more[i]];
        ElementsAppend(more[..i], more[i]);
        assert more[i] in Elements(more) && more[i] in Elements(visible);
        if more[i] !in all {
          forall e | e in all ensures e.id != more[i].id {
            assert e in Elements(all) && e in Elements(visible);
          }
          ElementsAppend(all, more[i]);
          all := all + [more[i]];
        }
      }
      assert more[..|more|] == more;
    }

    method Query(filters: seq<Filter>, partialReadLimit: Option<nat>, clock: Clock) returns (results: seq<Event>)
      requires forall id :: id in eventsById ==> eventsById[id].id == id
      ensures IsRead(Contents(), filters, partialReadLimit, clock, results)
    {
      var visible := VisibleEvents(clock);
      ghost var seen := Elements(visible);
      var deduped: seq<Event> := [];
      for i := 0 to |filters|
        invariant NoRepeatedIds(deduped)
        invariant Elements(deduped) == Answer(filters[..i], seen)
      {
        var limited := RankedMatches(filters[i], visible);
        ghost var before := deduped;
        deduped := AddNew(deduped, limited, visible);
        forall e ensures e in Elements(deduped) <==> e in Answer(filters[..i + 1], seen) {
          assert filters[..i + 1] == filters[..i] + [filters[i]];
          if SomeFilterPicks(filters[..i], seen, e) {
            var k :| 0 <= k < i && Picks(filters[..i][k], seen, e);
            assert Picks(filters[..i + 1][k], seen, e);
          }
          if SomeFilterPicks(filters[..i + 1], seen, e) {
            var k :| 0 <= k < i + 1 && Picks(filters[..i + 1][k], seen, e);
            assert k < i ==> Picks(filters[..i][k], seen, e);
          }
          assert Picks(filters[i], seen, e) ==> Picks(filters[..i + 1][i], seen, e);
          assert e in Elements(before) <==> e in Answer(filters[..i], seen);
        }
      }
      assert filters[..|filters|] == filters;
      SortRanks(deduped);
      results := Take(Sort(deduped), partialReadLimit);
    }
  }
}
