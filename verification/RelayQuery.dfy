/** Filters and ranked reads over the relay's store. */
module RelayQuery {
  import opened Wrappers
  import opened Text
  import opened RelayEvents
  import opened RelayStore
  import opened Sequences

  /** A normalised NIP-01 filter; `tags` maps a one-letter tag name to its accepted values. */
  datatype Filter = Filter(
    ids: Option<seq<string>>,
    authors: Option<seq<string>>,
    kinds: Option<seq<nat>>,
    since: Option<int>,
    until: Option<int>,
    limit: Option<nat>,
    tags: map<string, seq<string>>)

  /** `tag[0] === name && values.includes(tag[1] ?? "")` */
  predicate TagMatches(tag: seq<string>, name: string, values: seq<string>)
  {
    tag != [] && tag[0] == name && (if |tag| > 1 then tag[1] else "") in values
  }

  predicate HasTag(e: Event, name: string, values: seq<string>)
  {
    exists i :: 0 <= i < |e.tags| && TagMatches(e.tags[i], name, values)
  }

  predicate SomePrefix(prefixes: seq<string>, s: string)
  {
    exists i :: 0 <= i < |prefixes| && prefixes[i] <= s
  }

  predicate Matches(e: Event, f: Filter)
  {
    && (f.ids.Some? ==> SomePrefix(f.ids.value, e.id))
    && (f.authors.Some? ==> SomePrefix(f.authors.value, e.pubkey))
    && (f.kinds.Some? ==> e.kind in f.kinds.value)
    && (f.since.Some? ==> e.createdAt >= f.since.value)
    && (f.until.Some? ==> e.createdAt <= f.until.value)
    && (forall name :: name in f.tags && f.tags[name] != [] ==> HasTag(e, name, f.tags[name]))
  }

  /** A filter that a request can carry names ids and authors by whole identifiers only. */
  predicate NamesIdentifiers(f: Filter)
  {
    && (f.ids.Some? ==> forall i :: 0 <= i < |f.ids.value| ==> IsHexIdentifier(f.ids.value[i]))
    && (f.authors.Some? ==> forall i :: 0 <= i < |f.authors.value| ==> IsHexIdentifier(f.authors.value[i]))
  }

  lemma IdentifierPrefixIsEquality(ids: seq<string>, id: string)
    requires IsHexIdentifier(id) && forall i :: 0 <= i < |ids| ==> IsHexIdentifier(ids[i])
    ensures SomePrefix(ids, id) <==> id in ids
  {
    forall i | 0 <= i < |ids| ensures ids[i] <= id <==> ids[i] == id {
      assert |ids[i]| == |id|;
    }
  }

  /** On such filters the prefix tests are exact matches, as NIP-01 asks. */
  lemma IdentifierFiltersAreExact(verify: Verifier, e: Event, f: Filter)
    requires SoundVerifier(verify) && verify(e) && NamesIdentifiers(f)
    ensures f.ids.Some? ==> (SomePrefix(f.ids.value, e.id) <==> e.id in f.ids.value)
    ensures f.authors.Some? ==> (SomePrefix(f.authors.value, e.pubkey) <==> e.pubkey in f.authors.value)
  {
    if f.ids.Some? {
      IdentifierPrefixIsEquality(f.ids.value, e.id);
    }
    if f.authors.Some? {
      IdentifierPrefixIsEquality(f.authors.value, e.pubkey);
    }
  }

  /** Answer order: newest first, lower id first among equals. */
  predicate Before(a: Event, b: Event)
  {
    || a.createdAt > b.createdAt
    || (a.createdAt == b.createdAt && Less(a.id, b.id))
  }

  lemma BeforeIsStrictOrder(a: Event, b: Event, c: Event)
    ensures !Before(a, a)
    ensures Before(a, b) ==> !Before(b, a)
    ensures Before(a, b) && Before(b, c) ==> Before(a, c)
    ensures a.id != b.id ==> Before(a, b) || Before(b, a)
  {
    NewerIsStrictOrder(a, b, c);
  }

  ghost predicate Ordered(events: seq<Event>)
  {
    forall i, j :: 0 <= i < j < |events| ==> Before(events[i], events[j])
  }

  lemma ElementsAppend(events: seq<Event>, e: Event)
    ensures Elements(events + [e]) == Elements(events) + {e}
  {
    assert e in events + [e];
  }

  /** The ranking of a set of events: the one strictly ordered sequence of exactly its elements. */
  ghost predicate IsRanking(ranked: seq<Event>, events: set<Event>)
  {
    Ordered(ranked) && Elements(ranked) == events
  }

  lemma OrderedHead(ranked: seq<Event>)
    requires Ordered(ranked) && ranked != []
    ensures Ordered(ranked[1..])
    ensures Elements(ranked[1..]) == Elements(ranked) - {ranked[0]}
  {
    var tail := ranked[1..];
    BeforeIsStrictOrder(ranked[0], ranked[0], ranked[0]);
    forall e | e in tail ensures e != ranked[0] {
      var i :| 0 <= i < |tail| && tail[i] == e;
      assert Before(ranked[0], ranked[i + 1]);
    }
    assert forall e :: e in ranked <==> e == ranked[0] || e in tail;
  }

  /** Being strictly ordered and having the right elements leaves no freedom. */
  lemma {:induction false} RankingUnique(a: seq<Event>, b: seq<Event>)
    requires Ordered(a) && Ordered(b) && Elements(a) == Elements(b)
    ensures a == b
  {
    assert a != [] ==> a[0] in Elements(a);
    assert b != [] ==> b[0] in Elements(b);
    if a != [] && b != [] {
      BeforeIsStrictOrder(a[0], b[0], a[0]);
      assert a[0] == b[0];
      OrderedHead(a);
      OrderedHead(b);
      RankingUnique(a[1..], b[1..]);
      assert a == [a[0]] + a[1..] && b == [b[0]] + b[1..];
    }
  }

  /** Position in a ranking is the number of elements that come before. */
  lemma {:induction false} RankIsPosition(ranked: seq<Event>, i: nat)
    requires Ordered(ranked) && i < |ranked|
    ensures |set e | e in Elements(ranked) && Before(e, ranked[i])| == i
  {
    var ahead := set e | e in Elements(ranked) && Before(e, ranked[i]);
    forall e | e in ranked[..i] ensures e in ahead {
      var k :| 0 <= k < i && ranked[..i][k] == e;
      assert Before(ranked[k], ranked[i]) && ranked[k] in ranked;
    }
    forall e | e in ahead ensures e in ranked[..i] {
      var k :| 0 <= k < |ranked| && ranked[k] == e;
      BeforeIsStrictOrder(ranked[k], ranked[i], ranked[k]);
      assert ranked[..i][k] == e;
    }
    assert ahead == Elements(ranked[..i]);
    OrderedSize(ranked[..i]);
  }

  lemma {:induction false} OrderedSize(ranked: seq<Event>)
    requires Ordered(ranked)
    ensures |Elements(ranked)| == |ranked|
  {
    if ranked != [] {
      OrderedHead(ranked);
      OrderedSize(ranked[1..]);
      assert ranked[0] in Elements(ranked);
    }
  }

  /** Library sort, as stable insertion with the answer order's comparator. */
  function InsertRanked(e: Event, ranked: seq<Event>): seq<Event>
  {
    if ranked == [] then [e]
    else if Before(ranked[0], e) then [ranked[0]] + InsertRanked(e, ranked[1..])
    else [e] + ranked
  }

  function Sort(events: seq<Event>): seq<Event>
  {
    if events == [] then [] else InsertRanked(events[0], Sort(events[1..]))
  }

  lemma {:induction false} InsertRankedOrdered(e: Event, ranked: seq<Event>)
    requires Ordered(ranked)
    requires forall x :: x in ranked ==> x.id != e.id
    ensures IsRanking(InsertRanked(e, ranked), Elements(ranked) + {e})
  {
    if ranked != [] {
      var head, tail := ranked[0], ranked[1..];
      assert Elements(ranked) == {head} + Elements(tail);
      BeforeIsStrictOrder(head, e, e);
      if Before(head, e) {
        InsertRankedOrdered(e, tail);
        var rest := InsertRanked(e, tail);
        forall x | x in rest ensures Before(head, x) {
          assert x in Elements(rest);
          if x in tail {
            var i :| 0 <= i < |tail| && tail[i] == x;
            assert ranked[i + 1] == x;
          }
        }
      } else {
        forall x | x in ranked ensures Before(e, x) {
          BeforeIsStrictOrder(e, head, x);
        }
      }
    }
  }

  ghost predicate NoRepeatedIds(events: seq<Event>)
  {
    forall i, j :: 0 <= i < j < |events| ==> events[i].id != events[j].id
  }

  lemma {:induction false} SortRanks(events: seq<Event>)
    requires NoRepeatedIds(events)
    ensures IsRanking(Sort(events), Elements(events))
  {
    if events != [] {
      SortRanks(events[1..]);
      var rest := Sort(events[1..]);
      forall x | x in rest ensures x.id != events[0].id {
        assert x in Elements(rest);
        var i :| 0 <= i < |events[1..]| && events[1..][i] == x;
      }
      InsertRankedOrdered(events[0], rest);
      assert Elements(events) == Elements(events[1..]) + {events[0]};
    }
  }

  /** The matching events of one filter, before its limit. */
  ghost function Matching(f: Filter, visible: set<Event>): set<Event>
  {
    set e | e in visible && Matches(e, f)
  }

  /** A filter picks a visible match unless its limit is used up by matches ahead of it. */
  ghost predicate Picks(f: Filter, visible: set<Event>, e: Event)
  {
    && e in Matching(f, visible)
    && (f.limit.Some? ==> |set x | x in Matching(f, visible) && Before(x, e)| < f.limit.value)
  }

  ghost predicate SomeFilterPicks(filters: seq<Filter>, visible: set<Event>, e: Event)
  {
    exists i :: 0 <= i < |filters| && Picks(filters[i], visible, e)
  }

  /** Simple meaning of a read: every visible event that some filter picks. */
  ghost function Answer(filters: seq<Filter>, visible: set<Event>): set<Event>
  {
    set e | e in visible && SomeFilterPicks(filters, visible, e)
  }

  function Take(events: seq<Event>, limit: Option<nat>): seq<Event>
  {
    if limit.Some? && limit.value < |events| then events[..limit.value] else events
  }

  /** Slicing one filter's ranked matches keeps exactly what the filter picks. */
  lemma LimitedRanking(f: Filter, visible: set<Event>, ranked: seq<Event>)
    requires IsRanking(ranked, Matching(f, visible))
    ensures forall e :: e in Take(ranked, f.limit) <==> Picks(f, visible, e)
  {
    var taken := Take(ranked, f.limit);
    forall i | 0 <= i < |ranked|
      ensures |set x | x in Matching(f, visible) && Before(x, ranked[i])| == i
    {
      RankIsPosition(ranked, i);
      assert Elements(ranked) == Matching(f, visible);
    }
    forall e | e in taken ensures Picks(f, visible, e) {
      var j :| 0 <= j < |taken| && taken[j] == e;
      assert ranked[j] == e && e in Elements(ranked);
    }
    forall e | Picks(f, visible, e) ensures e in taken {
      assert e in Elements(ranked);
      var i :| 0 <= i < |ranked| && ranked[i] == e;
      assert taken[i] == e;
    }
  }

  /** A query reads the clock once for every event it looks at: the reading made for each id. */
  type Clock = string -> int

  ghost function VisibleAt(s: Contents, clock: Clock): set<Event>
  {
    set id | id in s.events && (id in s.visibleAt ==> s.visibleAt[id] <= clock(id)) &&
             (id !in s.visibleAt ==> 0 <= clock(id)) :: s.events[id]
  }

  /** What one read returns: the ranking of the answer, cut to a prefix in partial-read mode. */
  ghost predicate IsRead(s: Contents, filters: seq<Filter>, partialLimit: Option<nat>, clock: Clock, result: seq<Event>)
  {
    exists full ::
      IsRanking(full, Answer(filters, VisibleAt(s, clock))) && result == Take(full, partialLimit)
  }

  lemma ReadUnique(s: Contents, filters: seq<Filter>, partialLimit: Option<nat>, clock: Clock,
                   a: seq<Event>, b: seq<Event>)
    requires IsRead(s, filters, partialLimit, clock, a) && IsRead(s, filters, partialLimit, clock, b)
    ensures a == b
  {
    var answer := Answer(filters, VisibleAt(s, clock));
    var fullA :| IsRanking(fullA, answer) && a == Take(fullA, partialLimit);
    var fullB :| IsRanking(fullB, answer) && b == Take(fullB, partialLimit);
    RankingUnique(fullA, fullB);
  }

  /**
    The simple reading of a read: strictly ordered without repeats, only visible events some filter
    matches, all of them when no filter has a limit, and whatever a limited filter leaves out of a
    full read has that filter's whole limit of visible matches ahead of it.
   */
  lemma ReadMeaning(s: Contents, filters: seq<Filter>, partialLimit: Option<nat>, clock: Clock, result: seq<Event>)
    requires IsRead(s, filters, partialLimit, clock, result)
    ensures Ordered(result)
    ensures forall e :: e in result ==>
              e in VisibleAt(s, clock) && exists i :: 0 <= i < |filters| && Matches(e, filters[i])
    ensures partialLimit.None? ==>
              forall e, i ::
                e in VisibleAt(s, clock) && e !in result && 0 <= i < |filters| && Matches(e, filters[i]) ==>
                filters[i].limit.Some? &&
                |set x | x in Matching(filters[i], VisibleAt(s, clock)) && Before(x, e)| >= filters[i].limit.value
    ensures partialLimit.Some? ==> |result| <= partialLimit.value
    ensures exists full :: IsRead(s, filters, None, clock, full) && result <= full
  {
    var visible := VisibleAt(s, clock);
    var full :| IsRanking(full, Answer(filters, visible)) && result == Take(full, partialLimit);
    assert IsRead(s, filters, None, clock, full) && result <= full;
    forall e | e in result
      ensures e in visible && exists i :: 0 <= i < |filters| && Matches(e, filters[i])
    {
      assert e in Elements(full);
      var i :| 0 <= i < |filters| && Picks(filters[i], visible, e);
    }
    if partialLimit.None? {
      forall e, i | e in visible && e !in result && 0 <= i < |filters| && Matches(e, filters[i])
        ensures filters[i].limit.Some?
        ensures |set x | x in Matching(filters[i], visible) && Before(x, e)| >= filters[i].limit.value
      {
        assert e !in Elements(full);
        assert !Picks(filters[i], visible, e);
      }
    }
  }
}
