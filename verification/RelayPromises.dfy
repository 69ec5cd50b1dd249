/** What the relay promises, in terms of events, tags, filters and frames alone. */
module RelayPromises {
  import opened Wrappers
  import opened Text
  import opened RelayEvents
  import opened RelayStore
  import opened RelayQuery
  import opened RelaySession
  import opened Sequences
  import RelayLog

  // ----- which events compete, and which wins -----

  /** Identifiers are written with 64 of the sixteen lower-case hexadecimal digits. */
  lemma IdentifiersAreHex(s: string)
    ensures IsHexIdentifier(s) <==> |s| == 64 && forall c :: c in s ==> c in "0123456789abcdef"
  {
    var digits := "0123456789abcdef";
    forall c: char ensures c in digits <==> '0' <= c <= '9' || 'a' <= c <= 'f' {
      if '0' <= c <= '9' {
        assert digits[c as int - '0' as int] == c;
      } else if 'a' <= c <= 'f' {
        assert digits[10 + c as int - 'a' as int] == c;
      }
    }
    if forall c :: c in s ==> c in digits {
      forall i | 0 <= i < |s| ensures '0' <= s[i] <= '9' || 'a' <= s[i] <= 'f' {
        assert s[i] in s;
      }
    }
  }

  /** Tag i is the first one named "d". */
  ghost predicate FirstNamedD(tags: seq<seq<string>>, i: nat)
  {
    i < |tags| && ["d"] <= tags[i] && forall j :: 0 <= j < i ==> !(["d"] <= tags[j])
  }

  /** The value of the first tag named "d", which is empty if it, or the tag itself, is missing. */
  ghost predicate IsDValue(tags: seq<seq<string>>, value: string)
  {
    || (exists i: nat :: FirstNamedD(tags, i) && (["d", value] <= tags[i] || (tags[i] == ["d"] && value == "")))
    || (value == "" && forall tag :: tag in tags ==> !(["d"] <= tag))
  }

  lemma {:induction false} DTagIsFirst(tags: seq<seq<string>>)
    ensures IsDValue(tags, DTag(tags))
  {
    if tags != [] {
      if ["d"] <= tags[0] {
        assert FirstNamedD(tags, 0);
      } else {
        var rest := tags[1..];
        DTagIsFirst(rest);
        if i: nat :| FirstNamedD(rest, i) && (["d", DTag(rest)] <= rest[i] || (rest[i] == ["d"] && DTag(rest) == "")) {
          assert FirstNamedD(tags, i + 1);
        } else {
          assert forall tag :: tag in tags <==> tag == tags[0] || tag in rest;
        }
      }
    }
  }

  lemma DValueUnique(tags: seq<seq<string>>, a: string, b: string)
    requires IsDValue(tags, a) && IsDValue(tags, b)
    ensures a == b
  {
    if i: nat :| FirstNamedD(tags, i) {
      assert tags[i] in tags;
      var j: nat :| FirstNamedD(tags, j) && (["d", a] <= tags[j] || (tags[j] == ["d"] && a == ""));
      var k: nat :| FirstNamedD(tags, k) && (["d", b] <= tags[k] || (tags[k] == ["d"] && b == ""));
      assert j == k;
      assert ["d", a] <= tags[j] ==> tags[j][1] == a;
      assert ["d", b] <= tags[j] ==> tags[j][1] == b;
    }
  }

  /** Two events compete: they are of one key and one replaceable kind, or of one addressable kind and d value. */
  ghost predicate Compete(a: Event, b: Event)
  {
    && a.kind == b.kind && a.pubkey == b.pubkey
    && (|| a.kind in {0, 3} || 10_000 <= a.kind <= 19_999
        || (30_000 <= a.kind <= 39_999 && exists d :: IsDValue(a.tags, d) && IsDValue(b.tags, d)))
  }

  /** The first string precedes the second: as a proper prefix, or by the first character in which they differ. */
  ghost predicate Precedes(a: string, b: string)
  {
    exists k: nat :: k <= |a| && k < |b| && a[..k] == b[..k] && (k == |a| || a[k] < b[k])
  }

  lemma {:induction false} LessPrecedes(a: string, b: string)
    ensures Less(a, b) <==> Precedes(a, b)
  {
    if a != [] && b != [] {
      LessPrecedes(a[1..], b[1..]);
      if a[0] == b[0] {
        forall k: nat | k < |a| && k + 1 < |b| ensures a[..k + 1] == b[..k + 1] <==> a[1..][..k] == b[1..][..k] {
          assert a[..k + 1] == [a[0]] + a[1..][..k] && b[..k + 1] == [b[0]] + b[1..][..k];
        }
        if Precedes(a[1..], b[1..]) {
          var k: nat :| k <= |a[1..]| && k < |b[1..]| && a[1..][..k] == b[1..][..k] &&
                        (k == |a[1..]| || a[1..][k] < b[1..][k]);
          assert a[..k + 1] == b[..k + 1];
        }
        if k: nat :| k <= |a| && k < |b| && a[..k] == b[..k] && (k == |a| || a[k] < b[k]) {
          assert k > 0;
          assert a[1..][..k - 1] == b[1..][..k - 1];
        }
      } else {
        assert forall k: nat :: 0 < k <= |a| && k < |b| ==> a[..k][0] != b[..k][0];
        assert a[..0] == b[..0];
      }
    } else {
      assert a[..0] == b[..0];
    }
  }

  /** Event x outranks e: they compete, and x is newer, or as new with the id that comes first. */
  ghost predicate Outranks(x: Event, e: Event)
  {
    Compete(x, e) && (x.createdAt > e.createdAt || (x.createdAt == e.createdAt && Precedes(x.id, e.id)))
  }

  lemma CompeteByKey(a: Event, b: Event)
    requires IsHexIdentifier(a.pubkey) && IsHexIdentifier(b.pubkey)
    ensures Compete(a, b) <==> ReplacementKey(a).Some? && ReplacementKey(a) == ReplacementKey(b)
  {
    DTagIsFirst(a.tags);
    DTagIsFirst(b.tags);
    if ReplacementKey(a).Some? && ReplacementKey(b).Some? {
      KeysNameSlots(a, b);
    }
    forall d | IsDValue(a.tags, d) && IsDValue(b.tags, d) ensures DTag(a.tags) == DTag(b.tags) {
      DValueUnique(a.tags, d, DTag(a.tags));
      DValueUnique(b.tags, d, DTag(b.tags));
    }
  }

  /** An event lasts among those that arrived: verified, not ephemeral, and outranked by no verified one. */
  ghost predicate Lasts(verify: Verifier, arrived: set<Event>, e: Event)
  {
    && e in arrived && verify(e) && !(20_000 <= e.kind <= 29_999)
    && forall x :: x in arrived && verify(x) ==> !Outranks(x, e)
  }

  lemma LastsSurvives(verify: Verifier, arrived: set<Event>, e: Event)
    requires SoundVerifier(verify)
    ensures Lasts(verify, arrived, e) <==> Survives(verify, arrived, e)
  {
    if verify(e) {
      forall x | x in arrived && verify(x)
        ensures Outranks(x, e) <==>
                  ReplacementKey(e).Some? && ReplacementKey(x) == ReplacementKey(e) && IsNewerReplacement(x, e)
      {
        CompeteByKey(x, e);
        LessPrecedes(x.id, e.id);
      }
    }
  }

  /** After any arrivals, in any order, exactly the lasting events are held, each under its own id. */
  lemma StoreHoldsWhatLasts(verify: Verifier, arrivals: seq<Arrival>, id: string)
    requires SoundVerifier(verify)
    ensures var held := StoreAll(verify, EMPTY, arrivals).events;
            && (id in held <==> exists e :: Lasts(verify, Arrived(arrivals), e) && e.id == id)
            && (id in held ==> Lasts(verify, Arrived(arrivals), held[id]) && held[id].id == id)
  {
    var arrived := Arrived(arrivals);
    StoreAllInvariant(verify, arrivals);
    StoreKeepsExactlyTheSurvivors(verify, arrivals);
    forall e ensures Lasts(verify, arrived, e) <==> Survives(verify, arrived, e) {
      LastsSurvives(verify, arrived, e);
    }
    if id in StoreAll(verify, EMPTY, arrivals).events {
      HeldEventSurvives(verify, StoreAll(verify, EMPTY, arrivals), arrived, id);
    }
  }

  /** An event the relay takes in: it parses, has no empty tag, and verifies. */
  ghost predicate IsWelcome(verify: Verifier, raw: Option<Event>)
  {
    raw.Some? && raw.value.kind <= 65_535 && [] !in raw.value.tags && verify(raw.value)
  }

  /** The events the relay had taken in before step n, from its log or from clients, writes not being rejected. */
  ghost predicate TookIn(cfg: Config, run: Run, firstLog: seq<Event>, n: nat, e: Event)
    requires n <= |run.actions|
  {
    && IsWelcome(cfg.verify, Some(e))
    && (|| e in firstLog
        || (cfg.faultMode != RejectWrites &&
            exists i :: 0 <= i < n && run.actions[i].Publish? && run.actions[i].raw == Some(e)))
  }

  lemma {:induction false} LoggedAreWelcome(verify: Verifier, log: seq<Event>, now: int, e: Event)
    ensures e in Arrived(LoggedArrivals(verify, log, now)) <==> e in log && IsWelcome(verify, Some(e))
  {
    if log != [] {
      var init, last := log[..|log| - 1], log[|log| - 1];
      LoggedAreWelcome(verify, init, now, e);
      assert forall x :: x in log <==> x in init || x == last;
      var before := LoggedArrivals(verify, init, now);
      assert forall a :: a in before + [Arrival(last, now)] <==> a in before || a == Arrival(last, now);
      assert Arrival(last, now) in before + [Arrival(last, now)];
    }
  }

  lemma {:induction false} ReceivedIsTookIn(cfg: Config, run: Run, firstLog: seq<Event>, n: nat, e: Event)
    requires n <= |run.actions|
    ensures e in RelayLog.Received(cfg, firstLog, run.actions[..n]) <==> TookIn(cfg, run, firstLog, n, e)
  {
    if n == 0 {
      LoggedAreWelcome(cfg.verify, firstLog, 0, e);
    } else {
      ReceivedIsTookIn(cfg, run, firstLog, n - 1, e);
      assert run.actions[..n][..n - 1] == run.actions[..n - 1];
    }
  }

  /**
    At every moment of every run of a persistent relay, restarts included, the events held are
    exactly those that last among the ones it took in, whatever order they came in.
   */
  lemma RelayHoldsWhatLasts(cfg: Config, run: Run, firstLog: seq<Event>, start: int, n: nat, arrived: set<Event>,
                            id: string)
    requires SoundVerifier(cfg.verify)
    requires IsRun(cfg, run, firstLog, start) && cfg.persistence && n <= |run.actions|
    requires forall e :: e in arrived <==> TookIn(cfg, run, firstLog, n, e)
    ensures var held := run.states[n].store.events;
            && (id in held <==> exists e :: Lasts(cfg.verify, arrived, e) && e.id == id)
            && (id in held ==> Lasts(cfg.verify, arrived, held[id]) && held[id].id == id)
  {
    var received := RelayLog.Received(cfg, firstLog, run.actions[..n]);
    forall e ensures e in received <==> e in arrived {
      ReceivedIsTookIn(cfg, run, firstLog, n, e);
    }
    assert received == arrived;
    RelayLog.ServerCovers(cfg, run, firstLog, start, n);
    CoveredIsExact(cfg.verify, run.states[n].store, arrived);
    forall e ensures Lasts(cfg.verify, arrived, e) <==> Survives(cfg.verify, arrived, e) {
      LastsSurvives(cfg.verify, arrived, e);
    }
    if id in run.states[n].store.events {
      HeldEventSurvives(cfg.verify, run.states[n].store, arrived, id);
    }
  }

  // ----- what a read returns -----

  /** The tag has this name, and one of these values; a tag without a value counts as having the empty one. */
  ghost predicate TagAnswers(tag: seq<string>, name: string, values: seq<string>)
  {
    (exists v :: v in values && [name, v] <= tag) || (tag == [name] && "" in values)
  }

  /** What each field of a filter demands of an event; absent fields, and tag names without values, demand nothing. */
  ghost predicate Meets(e: Event, f: Filter)
  {
    && (f.ids.Some? ==> exists id :: id in f.ids.value && id <= e.id)
    && (f.authors.Some? ==> exists author :: author in f.authors.value && author <= e.pubkey)
    && (f.kinds.Some? ==> e.kind in f.kinds.value)
    && (f.since.Some? ==> f.since.value <= e.createdAt)
    && (f.until.Some? ==> e.createdAt <= f.until.value)
    && (forall name :: name in f.tags && f.tags[name] != [] ==>
          exists tag :: tag in e.tags && TagAnswers(tag, name, f.tags[name]))
  }

  lemma PrefixIsMember(prefixes: seq<string>, s: string)
    ensures SomePrefix(prefixes, s) <==> exists p :: p in prefixes && p <= s
  {
    if SomePrefix(prefixes, s) {
      var i :| 0 <= i < |prefixes| && prefixes[i] <= s;
      assert prefixes[i] in prefixes;
    }
    if p :| p in prefixes && p <= s {
      var i :| 0 <= i < |prefixes| && prefixes[i] == p;
      assert prefixes[i] <= s;
    }
  }

  lemma TagIsAnswer(tag: seq<string>, name: string, values: seq<string>)
    ensures TagMatches(tag, name, values) <==> TagAnswers(tag, name, values)
  {
    if TagMatches(tag, name, values) {
      if |tag| > 1 {
        assert [name, tag[1]] <= tag;
      } else {
        assert tag == [name];
      }
    }
  }

  lemma HasTagIsAnswered(e: Event, name: string, values: seq<string>)
    ensures HasTag(e, name, values) <==> exists tag :: tag in e.tags && TagAnswers(tag, name, values)
  {
    forall tag ensures TagMatches(tag, name, values) <==> TagAnswers(tag, name, values) {
      TagIsAnswer(tag, name, values);
    }
    if tag :| tag in e.tags && TagAnswers(tag, name, values) {
      var i :| 0 <= i < |e.tags| && e.tags[i] == tag;
      assert TagMatches(e.tags[i], name, values);
    }
  }

  /** A filter matches exactly the events that meet it. */
  lemma MatchesMeets(e: Event, f: Filter)
    ensures Matches(e, f) <==> Meets(e, f)
  {
    if f.ids.Some? { PrefixIsMember(f.ids.value, e.id); }
    if f.authors.Some? { PrefixIsMember(f.authors.value, e.pubkey); }
    forall name | name in f.tags
      ensures HasTag(e, name, f.tags[name]) <==> exists tag :: tag in e.tags && TagAnswers(tag, name, f.tags[name])
    {
      HasTagIsAnswered(e, name, f.tags[name]);
    }
  }

  /** The event is held, and its delay is over at the moment the read looks at it. */
  ghost predicate IsVisible(s: Contents, clock: Clock, e: Event)
  {
    && e.id in s.events && s.events[e.id] == e && e.id in s.visibleAt && s.visibleAt[e.id] <= clock(e.id)
  }

  /** Answers come newest first, and among events as new the id that comes first. */
  ghost predicate ComesFirst(a: Event, b: Event)
  {
    a.createdAt > b.createdAt || (a.createdAt == b.createdAt && Precedes(a.id, b.id))
  }

  /** Among the visible events that meet the filter, fewer than its limit come before this one. */
  ghost predicate WithinLimit(s: Contents, clock: Clock, f: Filter, e: Event, visible: set<Event>)
  {
    f.limit.Some? ==> |set x | x in visible && Meets(x, f) && ComesFirst(x, e)| < f.limit.value
  }

  lemma PicksWithinLimit(s: Contents, clock: Clock, f: Filter, e: Event)
    ensures Picks(f, VisibleAt(s, clock), e) <==>
              e in VisibleAt(s, clock) && Meets(e, f) && WithinLimit(s, clock, f, e, VisibleAt(s, clock))
  {
    var visible := VisibleAt(s, clock);
    forall x ensures Matches(x, f) <==> Meets(x, f) {
      MatchesMeets(x, f);
    }
    forall x ensures Before(x, e) <==> ComesFirst(x, e) {
      LessPrecedes(x.id, e.id);
    }
    assert (set x | x in Matching(f, visible) && Before(x, e)) ==
           (set x | x in visible && Meets(x, f) && ComesFirst(x, e));
  }

  lemma VisibleIsVisible(verify: Verifier, s: Contents, clock: Clock, e: Event)
    requires HoldsVerified(verify, s)
    ensures e in VisibleAt(s, clock) <==> IsVisible(s, clock, e)
  {
  }

  /**
    A full read returns, in order and without repeats, exactly the visible events that meet some
    filter and have fewer than that filter's limit of its matches before them; a partial read
    returns as many of those as its limit allows, from the first one on.
   */
  lemma ReadsAreExact(verify: Verifier, s: Contents, filters: seq<Filter>, partialLimit: Option<nat>, clock: Clock,
                      visible: set<Event>, read: seq<Event>)
    requires HoldsVerified(verify, s) && IsRead(s, filters, partialLimit, clock, read)
    requires forall e :: e in visible <==> IsVisible(s, clock, e)
    ensures forall i, j :: 0 <= i < j < |read| ==> ComesFirst(read[i], read[j])
    ensures exists full ::
              && (forall e :: e in full <==> e in visible && exists i :: 0 <= i < |filters| && Meets(e, filters[i]) &&
                                                                 WithinLimit(s, clock, filters[i], e, visible))
              && read <= full
              && |read| == if partialLimit.Some? && partialLimit.value < |full| then partialLimit.value else |full|
  {
    forall e ensures e in VisibleAt(s, clock) <==> e in visible {
      VisibleIsVisible(verify, s, clock, e);
    }
    assert VisibleAt(s, clock) == visible;
    var full :| IsRanking(full, Answer(filters, visible)) && read == Take(full, partialLimit);
    forall i, j | 0 <= i < j < |read| ensures ComesFirst(read[i], read[j]) {
      assert Before(full[i], full[j]);
      LessPrecedes(read[i].id, read[j].id);
    }
    forall e ensures e in full <==> e in visible && exists i :: 0 <= i < |filters| && Meets(e, filters[i]) &&
                                                         WithinLimit(s, clock, filters[i], e, visible)
    {
      assert e in full <==> e in Answer(filters, visible);
      forall i | 0 <= i < |filters|
        ensures Picks(filters[i], visible, e) <==>
                e in visible && Meets(e, filters[i]) && WithinLimit(s, clock, filters[i], e, visible)
      {
        PicksWithinLimit(s, clock, filters[i], e);
      }
    }
  }

  // ----- how a REQ is answered -----

  /** Filters that all parsed. */
  ghost predicate AllParsed(raw: seq<Option<Filter>>, filters: seq<Filter>)
  {
    |raw| == |filters| > 0 && forall i :: 0 <= i < |raw| ==> raw[i] == Some(filters[i])
  }

  /** The filters all ask for the gift wraps of this one key, and for nothing else. */
  ghost predicate AskFor(filters: seq<Filter>, key: string)
  {
    && IsHexIdentifier(key)
    && forall f :: f in filters ==> f.kinds == Some([1_059]) && "p" in f.tags && f.tags["p"] == [key]
  }

  /** None of the filters may match a gift wrap, or all ask for those of the one key that the client holds. */
  ghost predicate MayRead(client: Client, filters: seq<Filter>)
  {
    || (forall f :: f in filters ==> f.kinds.Some? && 1_059 !in f.kinds.value)
    || (client.authenticatedPubkey.Some? && AskFor(filters, client.authenticatedPubkey.value))
  }

  /** The REQ is served: subscription named, its read sent event by event, and EOSE last. */
  ghost predicate IsServed(cfg: Config, s: Server, a: Action, filters: seq<Filter>, t: Server, out: seq<Delivery>)
    requires a.Request? && Live(s, a.conn)
  {
    var client := s.clients[a.conn].value;
    && (exists subs ::
          && t == s.(clients := s.clients[a.conn := Some(client.(subscriptions := subs))])
          && forall sub :: sub in subs <==>
               || sub == Subscription(a.subscription, filters)
               || (sub in client.subscriptions && sub.id != a.subscription))
    && (exists read ::
          && IsRead(s.store, filters, if cfg.faultMode == PartialReads then Some(cfg.partialReadLimit) else None,
                    a.clock, read)
          && |out| == |read| + 1 && out[|read|] == Delivery(a.conn, EoseFrame(a.subscription))
          && forall i :: 0 <= i < |read| ==> out[i] == Delivery(a.conn, EventFrame(a.subscription, read[i])))
  }

  /** The REQ is refused: it changes nothing, and is closed for this reason, after these frames. */
  ghost predicate IsRefused(s: Server, a: Action, t: Server, out: seq<Delivery>, before: seq<Frame>, reason: string)
    requires a.Request?
  {
    && t == s && |out| == |before| + 1 && out[|before|] == Delivery(a.conn, ClosedFrame(a.subscription, reason))
    && forall i :: 0 <= i < |before| ==> out[i] == Delivery(a.conn, before[i])
  }

  /** Why filters that may not be read are refused: they mix keys, or the client has none, or another one. */
  ghost predicate IsDenied(s: Server, a: Action, filters: seq<Filter>, t: Server, out: seq<Delivery>)
    requires a.Request? && Live(s, a.conn)
  {
    var client := s.clients[a.conn].value;
    if forall key :: !AskFor(filters, key) then
      IsRefused(s, a, t, out, [], "restricted: protected reads require one authenticated recipient")
    else if client.authenticatedPubkey.None? then
      IsRefused(s, a, t, out, [AuthFrame(client.challenge)], "auth-required: authenticate for protected reads")
    else IsRefused(s, a, t, out, [], "restricted: authenticated account does not match recipient")
  }

  lemma ParsedIsAll(raw: seq<Option<Filter>>, filters: seq<Filter>)
    requires AllParsed(raw, filters)
    ensures WellFormed(raw) && Parsed(raw) == filters
  {
    forall x | x in raw ensures x != None {
    }
  }

  lemma MayReadAccepts(client: Client, filters: seq<Filter>)
    requires filters != []
    ensures MayRead(client, filters) <==> Accepts(client, filters)
  {
    if forall i :: 0 <= i < |filters| ==> !TouchesGiftWraps(filters[i]) {
    } else {
      var i :| 0 <= i < |filters| && TouchesGiftWraps(filters[i]);
      assert filters[i] in filters && filters[0] in filters;
      if client.authenticatedPubkey.Some? && AllAddressedTo(filters, client.authenticatedPubkey.value) {
        assert AddressedTo(filters[0], client.authenticatedPubkey.value);
        assert FirstRecipient(filters) == client.authenticatedPubkey.value;
      }
    }
  }

  lemma SubscribeServes(cfg: Config, s: Server, a: Action, filters: seq<Filter>, read: seq<Event>)
    requires a.Request? && Live(s, a.conn) && UniqueIds(s.clients[a.conn].value.subscriptions)
    requires IsRead(s.store, filters, cfg.ReadLimit(), a.clock, read)
    ensures var (t, out) := Subscribe(s, a.conn, a.subscription, filters, read); IsServed(cfg, s, a, filters, t, out)
  {
    SetSubscriptionMembers(s.clients[a.conn].value.subscriptions, a.subscription, filters);
  }

  lemma MalformedIsRefused(s: Server, a: Action, read: seq<Event>)
    requires a.Request? && Live(s, a.conn) && !WellFormed(a.filters)
    ensures var (t, out) := HandleReq(s, a.conn, a.subscription, a.filters, read);
            IsRefused(s, a, t, out, [], "invalid: malformed filter")
  {
  }

  lemma PlanAsks(filters: seq<Filter>, key: string)
    requires filters != []
    ensures AskFor(filters, key) <==> PlanFor(filters) == ProtectedRead(key)
  {
    assert filters[0] in filters;
    if AskFor(filters, key) {
      assert AddressedTo(filters[0], key) && TouchesGiftWraps(filters[0]);
      assert FirstRecipient(filters) == key;
    }
    if PlanFor(filters) == ProtectedRead(key) {
      forall f | f in filters ensures f.kinds == Some([1_059]) && "p" in f.tags && f.tags["p"] == [key] {
        var i :| 0 <= i < |filters| && filters[i] == f;
        assert AddressedTo(filters[i], key);
      }
      assert AddressedTo(filters[0], key);
    }
  }

  lemma DenialsAreReasoned(s: Server, a: Action, filters: seq<Filter>, read: seq<Event>)
    requires a.Request? && Live(s, a.conn) && WellFormed(a.filters) && Parsed(a.filters) == filters
    requires !Accepts(s.clients[a.conn].value, filters)
    ensures var (t, out) := HandleReq(s, a.conn, a.subscription, a.filters, read); IsDenied(s, a, filters, t, out)
  {
    forall key ensures AskFor(filters, key) <==> PlanFor(filters) == ProtectedRead(key) {
      PlanAsks(filters, key);
    }
    if PlanFor(filters).ProtectedRead? {
      assert AskFor(filters, PlanFor(filters).recipient);
    }
  }

  /**
    In every run a REQ is served exactly when all its filters parse and the client may read them:
    the subscription is held, every event of its read is sent, in order, and EOSE ends it.
   */
  lemma RequestsAreServed(cfg: Config, run: Run, firstLog: seq<Event>, start: int, n: nat, filters: seq<Filter>)
    requires IsRun(cfg, run, firstLog, start) && n < |run.actions| && run.actions[n].Request?
    ensures var s, a, t, out := run.states[n], run.actions[n], run.states[n + 1], run.sent[n];
            && Live(s, a.conn)
            && (AllParsed(a.filters, filters) ==>
                  if MayRead(s.clients[a.conn].value, filters) then IsServed(cfg, s, a, filters, t, out)
                  else IsDenied(s, a, filters, t, out))
            && ((a.filters == [] || None in a.filters) ==>
                  IsRefused(s, a, t, out, [], "invalid: malformed filter"))
  {
    var s, a, t, out := run.states[n], run.actions[n], run.states[n + 1], run.sent[n];
    assert Happens(cfg, run, n);
    assert Live(s, a.conn);
    var read :| (WellFormed(a.filters) ==> IsRead(s.store, Parsed(a.filters), cfg.ReadLimit(), a.clock, read)) &&
                (t, out) == HandleReq(s, a.conn, a.subscription, a.filters, read);
    SubscriptionsAreExplained(cfg, run, firstLog, start, n, a.conn);
    if AllParsed(a.filters, filters) {
      ParsedIsAll(a.filters, filters);
      MayReadAccepts(s.clients[a.conn].value, filters);
    }
    if AllParsed(a.filters, filters) && MayRead(s.clients[a.conn].value, filters) {
      SubscribeServes(cfg, s, a, filters, read);
    } else if !WellFormed(a.filters) {
      MalformedIsRefused(s, a, read);
    } else if AllParsed(a.filters, filters) {
      DenialsAreReasoned(s, a, filters, read);
    }
  }

  // ----- whatever a client sends is answered -----

  lemma {:induction false} RankingExists(events: set<Event>) returns (ranked: seq<Event>)
    requires forall a, b :: a in events && b in events && a.id == b.id ==> a == b
    ensures IsRanking(ranked, events)
    decreases |events|
  {
    if events == {} {
      ranked := [];
    } else {
      var e :| e in events;
      var rest := RankingExists(events - {e});
      forall x | x in rest ensures x.id != e.id {
        assert x in Elements(rest);
      }
      InsertRankedOrdered(e, rest);
      ranked := InsertRanked(e, rest);
      assert events - {e} + {e} == events;
    }
  }

  lemma ReadExists(verify: Verifier, s: Contents, filters: seq<Filter>, partialLimit: Option<nat>, clock: Clock)
    returns (read: seq<Event>)
    requires HoldsVerified(verify, s)
    ensures IsRead(s, filters, partialLimit, clock, read)
  {
    var full := RankingExists(Answer(filters, VisibleAt(s, clock)));
    read := Take(full, partialLimit);
  }

  /** The connection is open, or the timer set and due, that the action is about. */
  ghost predicate MayAct(s: Server, a: Action)
  {
    match a
    case Open(_) => true
    case Restart(_) => true
    case TimerFires(index, now) => index < |s.timers| && s.timers[index].dueAt <= now
    case Disconnect(conn) => Live(s, conn)
    case Publish(conn, _, _, _) => Live(s, conn)
    case Request(conn, _, _, _) => Live(s, conn)
    case Unsubscribe(conn, _) => Live(s, conn)
    case Authenticate(conn, _, _) => Live(s, conn)
    case Unsupported(conn, _) => Live(s, conn)
  }

  /** From every state a run can reach, every action on an open connection, and every due timer, can happen next. */
  lemma ActionsHappen(cfg: Config, s: Server, a: Action) returns (t: Server, out: seq<Delivery>)
    requires HoldsVerified(cfg.verify, s.store) && MayAct(s, a)
    ensures Step(cfg, s, a, t, out)
  {
    match a {
      case Open(challenge) => t, out := s.(clients := s.clients + [Some(Client([], challenge, None))]), [];
      case Disconnect(conn) => t, out := s.(clients := s.clients[conn := None]), [];
      case Publish(conn, claimedId, raw, now) =>
        var answer := HandleEvent(cfg, s, conn, claimedId, raw, now);
        t, out := answer.0, answer.1;
      case Request(conn, subscription, filters, clock) =>
        var read: seq<Event> := [];
        if WellFormed(filters) {
          read := ReadExists(cfg.verify, s.store, Parsed(filters), cfg.ReadLimit(), clock);
        }
        var answer := HandleReq(s, conn, subscription, filters, read);
        t, out := answer.0, answer.1;
      case Unsubscribe(conn, subscription) =>
        var client := s.clients[conn].value;
        t := WithClient(s, conn, client.(subscriptions := DropSubscription(client.subscriptions, subscription)));
        out := [];
      case Authenticate(conn, raw, now) =>
        var answer := HandleAuth(cfg, s, conn, raw, now);
        t, out := answer.0, answer.1;
      case Unsupported(conn, notice) => t, out := s, [Delivery(conn, NoticeFrame(notice))];
      case TimerFires(index, now) =>
        t := s.(timers := s.timers[..index] + s.timers[index + 1..]);
        out := BroadcastFrames(s.clients, s.timers[index].event);
      case Restart(now) => t, out := Started(cfg.verify, s.log, |s.clients|, now), [];
    }
  }
}
