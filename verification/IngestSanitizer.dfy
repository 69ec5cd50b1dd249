/** The telemetry proxy's payload sanitizer: events are rebuilt from an allowlist or dropped whole. */
module IngestSanitizer {
  import opened Wrappers
  import opened Json

  type Fields = map<string, Json>

  // ----- tables and syntax -----

  const ANONYMOUS_DISTINCT_ID := "conduit-browser-telemetry"
  const MAX_EVENTS_PER_REQUEST := 100

  const LABEL_NAMES: set<string> := {
    "event_name", "app", "network", "status", "latency_bucket", "count", "time_bucket", "surface", "action", "step",
    "mode", "rail", "method", "event_family", "count_bucket", "result_count_bucket", "amount_bucket", "product_type",
    "declaration_class", "delivery_route", "ack_outcome", "repair_outcome", "block_reason", "handoff_stage",
    "partner_code", "source_domain", "source_method"}
  const PROPERTY_NAMES: set<string> := LABEL_NAMES + {"page_url", "page_path"}
  const BASE_NAMES: set<string> := {"event_name", "app", "page_url", "page_path"}
  const TOP_LEVEL_KEYS: set<string> := {"event", "properties", "uuid", "timestamp", "offset"}
  const SESSION_NAMES: set<string> := {"$session_id", "$pageview_id", "$prev_pageview_id"}
  const PERCENTAGE_NAMES: set<string> := {
    "$prev_pageview_last_content_percentage", "$prev_pageview_last_scroll_percentage",
    "$prev_pageview_max_content_percentage", "$prev_pageview_max_scroll_percentage"}
  const WEB_VITAL_NAMES: set<string> := {
    "$web_vitals_CLS_value", "$web_vitals_FCP_value", "$web_vitals_INP_value", "$web_vitals_LCP_value"}
  const ATTRIBUTION_NAMES: set<string> := {"source_method", "source_domain", "partner_code"}

  function LifecycleRequired(eventName: string): Option<set<string>>
  {
    if eventName == "$pageview" then Some({"app", "page_url", "page_path", "$session_id", "$pageview_id"})
    else if eventName == "$pageleave" || eventName == "$web_vitals" then
      Some({"app", "page_url", "page_path", "$session_id"})
    else None
  }

  datatype EventContract = EventContract(required: set<string>, optional: set<string>)

  datatype Url = Url(origin: string, pathname: string, bare: bool, officialHost: bool)

  /** The tables of the telemetry contract, and the runtime's URL and date functions. */
  datatype Config = Config(
    contracts: map<string, EventContract>,
    labelAllowed: (string, string, string) -> bool,
    attributionValid: Fields -> bool,
    isRoutePath: string -> bool,
    isProductPath: string -> bool,
    parseUrl: string -> Option<Url>,
    parseDate: string -> Option<int>,
    isoDate: int -> string,
    app: string,
    origin: string,
    pinnedToken: Option<string>)

  const MAX_TIME := 8_640_000_000_000_000
  const HOUR := 3_600_000

  predicate IsTime(ms: int)
  {
    -MAX_TIME <= ms <= MAX_TIME
  }

  /** Dates: parsing stays in range, and undoes printing, which is at most 40 characters. */
  ghost predicate SoundDates(c: Config)
  {
    && (forall s :: c.parseDate(s).Some? ==> IsTime(c.parseDate(s).value))
    && (forall ms :: IsTime(ms) ==> c.parseDate(c.isoDate(ms)) == Some(ms) && |c.isoDate(ms)| <= 40)
  }

  predicate IsAlphanumeric(x: char)
  {
    'A' <= x <= 'Z' || 'a' <= x <= 'z' || '0' <= x <= '9'
  }

  predicate IsProjectToken(s: string)
  {
    20 <= |s| <= 68 && s[..4] == "phc_" && forall i :: 4 <= i < |s| ==> IsAlphanumeric(s[i])
  }

  predicate IsHexDigit(x: char)
  {
    '0' <= x <= '9' || 'a' <= x <= 'f' || 'A' <= x <= 'F'
  }

  /** A UUID in text whose version digit lies between two digits. */
  predicate IsUuid(s: string, low: char, high: char)
  {
    && |s| == 36 && low <= s[14] <= high && s[19] in {'8', '9', 'a', 'b', 'A', 'B'}
    && forall i :: 0 <= i < 36 ==> if i in {8, 13, 18, 23} then s[i] == '-' else IsHexDigit(s[i])
  }

  predicate IsBounded(v: Json, max: real)
  {
    v.Number? && 0.0 <= v.n <= max
  }

  predicate IsCanonicalTimestamp(c: Config, v: Json)
  {
    && v.Str? && |v.s| <= 40 && c.parseDate(v.s).Some?
    && c.isoDate(c.parseDate(v.s).value) == v.s
  }

  predicate IsPagePath(c: Config, v: Json, eventName: string)
  {
    v.Str? && c.isRoutePath(v.s) && (eventName == "$pageview" || !c.isProductPath(v.s))
  }

  predicate IsPageUrl(c: Config, v: Json, eventName: string)
  {
    && v.Str? && |v.s| <= 640
    && match c.parseUrl(v.s)
       case None => false
       case Some(url) =>
         && url.bare && IsPagePath(c, Str(url.pathname), eventName)
         && v.s == url.origin + url.pathname && url.officialHost
  }

  predicate IsCounter(eventName: string, properties: Fields)
  {
    || eventName == "checkout_handoff_result"
    || "source_method" in properties || "source_domain" in properties || "partner_code" in properties
  }

  // ----- properties -----

  datatype Verdict = Keep(value: Json) | Leave | Reject

  function KeepIf(ok: bool, v: Json): Verdict
  {
    if ok then Keep(v) else Reject
  }

  predicate IsPinned(c: Config)
  {
    c.pinnedToken.Some? && c.pinnedToken.value != ""
  }

  function TokenVerdict(c: Config, v: Json): Verdict
  {
    if !v.Str? || !IsProjectToken(v.s) || (IsPinned(c) && v.s != c.pinnedToken.value) then Reject
    else Keep(Str(if c.pinnedToken.Some? then c.pinnedToken.value else v.s))
  }

  predicate IsAllowedProperty(c: Config, eventName: string, key: string)
  {
    && eventName in c.contracts
    && (key in BASE_NAMES || key in c.contracts[eventName].required || key in c.contracts[eventName].optional)
  }

  /** What becomes of one property; `counter` says whether the event counts attributions. */
  function PropertyVerdict(c: Config, eventName: string, counter: bool, key: string, v: Json): Verdict
  {
    if key == "distinct_id" then (if v == Str(ANONYMOUS_DISTINCT_ID) then Leave else Reject)
    else if key == "$process_person_profile" then (if v == Bool(false) then Leave else Reject)
    else if key == "token" then TokenVerdict(c, v)
    else if eventName in c.contracts && key in PROPERTY_NAMES && !IsAllowedProperty(c, eventName, key) then Reject
    else if eventName !in c.contracts && key in LABEL_NAMES && key != "app" then Reject
    else if key in LABEL_NAMES then KeepIf(v.Str? && c.labelAllowed(key, v.s, eventName), v)
    else if key == "page_path" || key == "$pathname" then KeepIf(IsPagePath(c, v, eventName), v)
    else if key == "page_url" || key == "$current_url" then KeepIf(IsPageUrl(c, v, eventName), v)
    else if key in SESSION_NAMES then
      if !(v.Str? && IsUuid(v.s, '7', '7')) then Reject else if counter then Leave else Keep(v)
    else if eventName == "$pageleave" && key == "$prev_pageview_pathname" then KeepIf(IsPagePath(c, v, eventName), v)
    else if eventName == "$pageleave" && key == "$prev_pageview_duration" then KeepIf(IsBounded(v, 86_400.0), v)
    else if eventName == "$pageleave" && key in PERCENTAGE_NAMES then KeepIf(IsBounded(v, 1.0), v)
    else if eventName == "$web_vitals" && key in WEB_VITAL_NAMES then KeepIf(IsBounded(v, 900_000.0), v)
    else Reject
  }

  const DEFAULTS: Fields := map["$process_person_profile" := Bool(false), "distinct_id" := Str(ANONYMOUS_DISTINCT_ID)]

  type Judge = (string, Json) -> Verdict

  function JudgeOf(c: Config, eventName: string, counter: bool): Judge
  {
    (key, v) => PropertyVerdict(c, eventName, counter, key, v)
  }

  predicate SomeRejected(judge: Judge, properties: Fields)
  {
    exists key :: key in properties && judge(key, properties[key]).Reject?
  }

  function Kept(judge: Judge, properties: Fields): Fields
  {
    DEFAULTS + map key | key in properties && judge(key, properties[key]).Keep? :: judge(key, properties[key]).value
  }

  function Restrict(properties: Fields, keys: set<string>): Fields
  {
    map key | key in properties && key in keys :: properties[key]
  }

  lemma KeptGrows(judge: Judge, properties: Fields, seen: set<string>, key: string)
    requires key in properties && key !in seen && (key in DEFAULTS ==> !judge(key, properties[key]).Keep?)
    ensures Kept(judge, Restrict(properties, seen + {key})) ==
            if judge(key, properties[key]).Keep?
            then Kept(judge, Restrict(properties, seen))[key := judge(key, properties[key]).value]
            else Kept(judge, Restrict(properties, seen))
  {
    var was, now := Kept(judge, Restrict(properties, seen)), Kept(judge, Restrict(properties, seen + {key}));
    forall k | k != key ensures (k in now <==> k in was) && (k in now ==> now[k] == was[k]) {
    }
    if judge(key, properties[key]).Keep? {
      assert key in now && now[key] == judge(key, properties[key]).value;
    }
  }

  /** What the loop has built once it has gone through the entries in `seen`. */
  ghost predicate BuiltFrom(judge: Judge, properties: Fields, seen: set<string>, rebuilt: Fields)
  {
    rebuilt == Kept(judge, Restrict(properties, seen)) && !SomeRejected(judge, Restrict(properties, seen))
  }

  lemma BuiltGrows(judge: Judge, properties: Fields, seen: set<string>, rebuilt: Fields, key: string)
    requires key in properties && key !in seen && (key in DEFAULTS ==> !judge(key, properties[key]).Keep?)
    requires BuiltFrom(judge, properties, seen, rebuilt) && !judge(key, properties[key]).Reject?
    ensures BuiltFrom(judge, properties, seen + {key},
                      if judge(key, properties[key]).Keep? then rebuilt[key := judge(key, properties[key]).value]
                      else rebuilt)
  {
    KeptGrows(judge, properties, seen, key);
  }

  lemma NothingBuilt(judge: Judge, properties: Fields)
    ensures BuiltFrom(judge, properties, {}, DEFAULTS)
  {
    assert Restrict(properties, {}) == map[];
  }

  lemma AllBuilt(judge: Judge, properties: Fields, rebuilt: Fields)
    requires BuiltFrom(judge, properties, properties.Keys, rebuilt)
    ensures !SomeRejected(judge, properties) && rebuilt == Kept(judge, properties)
  {
    assert Restrict(properties, properties.Keys) == properties;
  }

  /** The loop over the entries of the properties; None as soon as one is rejected. */
  method KeepAllowed(judge: Judge, properties: Fields) returns (result: Option<Fields>)
    requires forall key, v :: key in DEFAULTS ==> !judge(key, v).Keep?
    ensures result == if SomeRejected(judge, properties) then None else Some(Kept(judge, properties))
  {
    var rebuilt := DEFAULTS;
    var keys := properties.Keys;
    ghost var seen: set<string> := {};
    NothingBuilt(judge, properties);
    while keys != {}
      invariant keys <= properties.Keys && seen == properties.Keys - keys
      invariant BuiltFrom(judge, properties, seen, rebuilt)
      decreases |keys|
    {
      var key :| key in keys;
      var verdict := judge(key, properties[key]);
      if verdict.Reject? {
        assert SomeRejected(judge, properties);
        return None;
      }
      BuiltGrows(judge, properties, seen, rebuilt, key);
      if verdict.Keep? {
        rebuilt := rebuilt[key := verdict.value];
      }
      seen := seen + {key};
      keys := keys - {key};
    }
    assert seen == properties.Keys;
    AllBuilt(judge, properties, rebuilt);
    return Some(rebuilt);
  }

  predicate TrustedPageContext(c: Config, properties: Fields)
  {
    && "app" in properties && properties["app"] == Str(c.app)
    && "page_url" in properties && properties["page_url"].Str?
    && "page_path" in properties && properties["page_path"].Str?
    && c.parseUrl(properties["page_url"].s).Some?
    && c.parseUrl(properties["page_url"].s).value.origin == c.origin
    && c.parseUrl(properties["page_url"].s).value.pathname == properties["page_path"].s
    && ("$current_url" in properties ==> properties["$current_url"] == properties["page_url"])
    && ("$pathname" in properties ==> properties["$pathname"] == properties["page_path"])
    && ("$prev_pageview_pathname" in properties ==> properties["$prev_pageview_pathname"] == properties["page_path"])
  }

  /** The checks on the whole set of rebuilt properties. */
  predicate IsComplete(c: Config, eventName: string, properties: Fields)
  {
    && (if eventName in c.contracts
        then c.attributionValid(properties) && BASE_NAMES + c.contracts[eventName].required <= properties.Keys
        else LifecycleRequired(eventName).Some? && LifecycleRequired(eventName).value <= properties.Keys)
    && (eventName == "$web_vitals" ==> exists name :: name in WEB_VITAL_NAMES && name in properties)
    && TrustedPageContext(c, properties)
  }

  function WithToken(c: Config, properties: Fields): Option<Fields>
  {
    if "token" in properties then Some(properties)
    else if IsPinned(c) then Some(properties["token" := Str(c.pinnedToken.value)])
    else None
  }

  function RebuiltProperties(c: Config, eventName: string, value: Json): Option<Fields>
  {
    if !value.Obj? then None
    else
      var judge := JudgeOf(c, eventName, IsCounter(eventName, value.fields));
      if SomeRejected(judge, value.fields) then None else Completed(c, eventName, Kept(judge, value.fields))
  }

  function Completed(c: Config, eventName: string, kept: Fields): Option<Fields>
  {
    match WithToken(c, kept)
    case None => None
    case Some(rebuilt) => if IsComplete(c, eventName, rebuilt) then Some(rebuilt) else None
  }

  method RebuildIngestEventProperties(c: Config, eventName: string, value: Json) returns (result: Option<Fields>)
    ensures result == RebuiltProperties(c, eventName, value)
  {
    if !value.Obj? {
      return None;
    }
    var judge := JudgeOf(c, eventName, IsCounter(eventName, value.fields));
    DefaultsAreLeft(c, eventName, IsCounter(eventName, value.fields));
    var kept := KeepAllowed(judge, value.fields);
    if kept.None? {
      return None;
    }
    return Completed(c, eventName, kept.value);
  }

  lemma DefaultsAreLeft(c: Config, eventName: string, counter: bool)
    ensures forall key, v :: key in DEFAULTS ==> !JudgeOf(c, eventName, counter)(key, v).Keep?
  {
  }

  // ----- events -----

  /** An attribution counter's timestamp is cut to the hour. */
  function KeptTimestamp(c: Config, counter: bool, v: Json): Json
    requires IsCanonicalTimestamp(c, v)
  {
    if counter then Str(c.isoDate(c.parseDate(v.s).value / HOUR * HOUR)) else v
  }

  function RebuiltEvent(c: Config, value: Json): Option<Fields>
  {
    if !value.Obj? || !(value.fields.Keys <= TOP_LEVEL_KEYS) then None
    else if "event" !in value.fields || !value.fields["event"].Str? then None
    else
      var fields, eventName := value.fields, value.fields["event"].s;
      if eventName !in c.contracts && LifecycleRequired(eventName).None? then None
      else if "properties" !in fields then None
      else
        match RebuiltProperties(c, eventName, fields["properties"])
        case None => None
        case Some(properties) => RebuiltEnvelope(c, fields, properties, IsCounter(eventName, properties))
  }

  /** The event's own fields beside its properties. */
  function RebuiltEnvelope(c: Config, fields: Fields, properties: Fields, counter: bool): Option<Fields>
    requires "event" in fields
  {
    if "uuid" in fields && !(fields["uuid"].Str? && IsUuid(fields["uuid"].s, '1', '8')) then None
    else if "timestamp" in fields && !IsCanonicalTimestamp(c, fields["timestamp"]) then None
    else if "offset" in fields && !IsBounded(fields["offset"], 86_400_000.0) then None
    else
      Some(map["event" := fields["event"], "properties" := Obj(properties)]
           + (if "uuid" in fields && !counter then map["uuid" := fields["uuid"]] else map[])
           + (if "timestamp" in fields
              then map["timestamp" := KeptTimestamp(c, counter, fields["timestamp"])] else map[])
           + (if "offset" in fields && !counter then map["offset" := fields["offset"]] else map[]))
  }

  // ----- payloads -----

  datatype Shape = Single | Batch | CaptureBatch(apiKey: string, sentAt: string)

  datatype Rebuilt = Rebuilt(shape: Shape, events: seq<Fields>)

  /** The candidates of a payload, and the shape it goes on in; None where it is refused outright. */
  function Opened(c: Config, parsed: Json): Option<(Shape, seq<Json>)>
  {
    if parsed.Arr? then Some((Batch, parsed.items))
    else if parsed.Obj? && "batch" in parsed.fields then
      var f := parsed.fields;
      if !(f.Keys <= {"api_key", "batch", "sent_at"}) || !f["batch"].Arr? || "api_key" !in f || !f["api_key"].Str? ||
         !IsProjectToken(f["api_key"].s) || (IsPinned(c) && f["api_key"].s != c.pinnedToken.value) ||
         "sent_at" !in f || !IsCanonicalTimestamp(c, f["sent_at"]) then None
      else
        var apiKey := if c.pinnedToken.Some? then c.pinnedToken.value else f["api_key"].s;
        Some((CaptureBatch(apiKey, f["sent_at"].s), f["batch"].items))
    else Some((Single, [parsed]))
  }

  /** A rebuilt event goes on, in a capture batch only under the batch's own token. */
  function Survivor(c: Config, shape: Shape, candidate: Json): Option<Fields>
  {
    match RebuiltEvent(c, candidate)
    case None => None
    case Some(event) =>
      if shape.CaptureBatch? && TokenOf(event) != Some(Str(shape.apiKey)) then None else Some(event)
  }

  function TokenOf(event: Fields): Option<Json>
  {
    if "properties" in event && event["properties"].Obj? && "token" in event["properties"].fields
    then Some(event["properties"].fields["token"]) else None
  }

  type Sieve = Json -> Option<Fields>

  function SieveOf(c: Config, shape: Shape): Sieve
  {
    candidate => Survivor(c, shape, candidate)
  }

  /** The candidates that a sieve lets through, as it leaves them. */
  function Survivors(sieve: Sieve, candidates: seq<Json>): seq<Fields>
  {
    if candidates == [] then []
    else
      var front := Survivors(sieve, candidates[..|candidates| - 1]);
      match sieve(candidates[|candidates| - 1])
      case None => front
      case Some(event) => front + [event]
  }

  /** What the sanitizer makes of a body that parses (None stands for one that does not). */
  function RebuiltPayload(c: Config, body: Option<Json>): Option<Rebuilt>
  {
    if body.None? || Opened(c, body.value).None? then None
    else
      var (shape, candidates) := Opened(c, body.value).value;
      if candidates == [] || |candidates| > MAX_EVENTS_PER_REQUEST then None
      else Some(Rebuilt(shape, Survivors(SieveOf(c, shape), candidates)))
  }

  method RebuildPostHogIngestPayload(c: Config, body: Option<Json>) returns (result: Option<Rebuilt>)
    ensures result == RebuiltPayload(c, body)
  {
    if body.None? {
      return None;
    }
    var payload := Opened(c, body.value);
    if payload.None? {
      return None;
    }
    var (shape, candidates) := payload.value;
    if candidates == [] || |candidates| > MAX_EVENTS_PER_REQUEST {
      return None;
    }
    var events: seq<Fields> := [];
    for i := 0 to |candidates|
      invariant events == Survivors(SieveOf(c, shape), candidates[..i])
    {
      var event := Survivor(c, shape, candidates[i]);
      assert candidates[..i + 1][..i] == candidates[..i];
      if event.Some? {
        events := events + [event.value];
      }
    }
    assert candidates[..|candidates|] == candidates;
    return Some(Rebuilt(shape, events));
  }

  function Objects(events: seq<Fields>): seq<Json>
  {
    seq(|events|, i requires 0 <= i < |events| => Obj(events[i]))
  }

  /** The body that is sent upstream for a rebuilt payload. */
  function Upstream(r: Rebuilt): Json
    requires r.events != []
  {
    match r.shape
    case Single => Obj(r.events[0])
    case Batch => Arr(Objects(r.events))
    case CaptureBatch(apiKey, sentAt) =>
      Obj(map["api_key" := Str(apiKey), "batch" := Arr(Objects(r.events)), "sent_at" := Str(sentAt)])
  }

  // ----- rebuilding changes nothing the second time -----

  /** The operator pinned no token, or one that has a token's form. */
  predicate UsablePin(c: Config)
  {
    c.pinnedToken.Some? ==> IsProjectToken(c.pinnedToken.value)
  }

  lemma KeptKeys(judge: Judge, properties: Fields, key: string)
    requires key !in DEFAULTS
    ensures key in Kept(judge, properties) <==> key in properties && judge(key, properties[key]).Keep?
    ensures key in Kept(judge, properties) ==>
              judge(key, properties[key]) == Keep(Kept(judge, properties)[key])
  {
  }

  /** Properties that are judged as they stand, but for the defaults, stay as they are. */
  lemma KeptStays(judge: Judge, q: Fields)
    requires DEFAULTS.Keys <= q.Keys
    requires forall key :: key in DEFAULTS ==> q[key] == DEFAULTS[key]
    requires forall key :: key in q ==> judge(key, q[key]) == if key in DEFAULTS then Leave else Keep(q[key])
    ensures !SomeRejected(judge, q) && Kept(judge, q) == q
  {
  }

  /** A value that was kept is the value itself, except that a token becomes the pinned one. */
  lemma KeepsItself(c: Config, eventName: string, counter: bool, key: string, v: Json, kept: Json)
    requires JudgeOf(c, eventName, counter)(key, v) == Keep(kept)
    ensures key != "token" ==> kept == v
    ensures key == "token" ==> TokenVerdict(c, v) == Keep(kept)
  {
  }

  lemma TokenIsJudged(c: Config, eventName: string, counter: bool, v: Json)
    ensures JudgeOf(c, eventName, counter)("token", v) == TokenVerdict(c, v)
  {
  }

  lemma DefaultIsLeft(c: Config, eventName: string, counter: bool, key: string)
    requires key in DEFAULTS
    ensures JudgeOf(c, eventName, counter)(key, DEFAULTS[key]) == Leave
  {
  }

  lemma AttributionIsNotLeft(c: Config, eventName: string, counter: bool, key: string, v: Json)
    requires key in ATTRIBUTION_NAMES
    ensures !JudgeOf(c, eventName, counter)(key, v).Leave?
  {
  }

  lemma SessionNamesApart(key: string)
    requires key in SESSION_NAMES
    ensures key !in PROPERTY_NAMES && key !in LABEL_NAMES
    ensures key !in {"distinct_id", "$process_person_profile", "token", "page_path", "$pathname", "page_url",
                     "$current_url"}
  {
  }

  lemma SessionIsNotKept(c: Config, eventName: string, key: string, v: Json)
    requires key in SESSION_NAMES
    ensures !JudgeOf(c, eventName, true)(key, v).Keep?
  {
    SessionNamesApart(key);
  }

  /** The kept properties, and the token that was added if none was among them. */
  lemma RebuiltFrom(c: Config, eventName: string, value: Json, q: Fields)
    requires RebuiltProperties(c, eventName, value) == Some(q)
    ensures value.Obj?
    ensures var kept := Kept(JudgeOf(c, eventName, IsCounter(eventName, value.fields)), value.fields);
            && !SomeRejected(JudgeOf(c, eventName, IsCounter(eventName, value.fields)), value.fields)
            && WithToken(c, kept) == Some(q) && IsComplete(c, eventName, q)
            && (forall key :: key in DEFAULTS ==> key in kept)
  {
  }

  lemma RebuiltDefaults(c: Config, eventName: string, value: Json, q: Fields)
    requires RebuiltProperties(c, eventName, value) == Some(q)
    ensures forall key :: key in DEFAULTS ==> key in q && q[key] == DEFAULTS[key]
  {
    RebuiltFrom(c, eventName, value, q);
    DefaultsAreLeft(c, eventName, IsCounter(eventName, value.fields));
  }

  lemma RebuiltToken(c: Config, eventName: string, value: Json, q: Fields)
    requires RebuiltProperties(c, eventName, value) == Some(q)
    ensures "token" in q && q["token"].Str?
    ensures c.pinnedToken.Some? ==> q["token"] == Str(c.pinnedToken.value)
    ensures UsablePin(c) ==> TokenVerdict(c, q["token"]) == Keep(q["token"])
  {
    RebuiltFrom(c, eventName, value, q);
    var counter := IsCounter(eventName, value.fields);
    KeptKeys(JudgeOf(c, eventName, counter), value.fields, "token");
    if "token" in value.fields {
      TokenIsJudged(c, eventName, counter, value.fields["token"]);
    }
  }

  lemma RebuiltKeys(c: Config, eventName: string, value: Json, q: Fields, key: string)
    requires RebuiltProperties(c, eventName, value) == Some(q)
    requires key != "token" && key !in DEFAULTS
    ensures value.Obj?
    ensures var judge := JudgeOf(c, eventName, IsCounter(eventName, value.fields));
            && (key in value.fields ==> !judge(key, value.fields[key]).Reject?)
            && (key in q <==> key in value.fields && judge(key, value.fields[key]).Keep?)
            && (key in q ==> judge(key, q[key]) == Keep(q[key]))
  {
    RebuiltFrom(c, eventName, value, q);
    var counter := IsCounter(eventName, value.fields);
    KeptKeys(JudgeOf(c, eventName, counter), value.fields, key);
    if key in q {
      KeepsItself(c, eventName, counter, key, value.fields[key], q[key]);
    }
  }

  lemma CounterKept(c: Config, eventName: string, value: Json, q: Fields)
    requires RebuiltProperties(c, eventName, value) == Some(q)
    ensures value.Obj? && IsCounter(eventName, q) == IsCounter(eventName, value.fields)
  {
    AttributionKept(c, eventName, value, q, "source_method");
    AttributionKept(c, eventName, value, q, "source_domain");
    AttributionKept(c, eventName, value, q, "partner_code");
  }

  lemma AttributionKept(c: Config, eventName: string, value: Json, q: Fields, key: string)
    requires RebuiltProperties(c, eventName, value) == Some(q) && key in ATTRIBUTION_NAMES
    ensures value.Obj? && (key in q <==> key in value.fields)
  {
    RebuiltKeys(c, eventName, value, q, key);
    if key in value.fields {
      AttributionIsNotLeft(c, eventName, IsCounter(eventName, value.fields), key, value.fields[key]);
    }
  }

  lemma RebuiltVerdict(c: Config, eventName: string, value: Json, q: Fields, key: string)
    requires RebuiltProperties(c, eventName, value) == Some(q) && UsablePin(c) && key in q
    ensures JudgeOf(c, eventName, IsCounter(eventName, q))(key, q[key]) ==
            if key in DEFAULTS then Leave else Keep(q[key])
  {
    CounterKept(c, eventName, value, q);
    if key == "token" {
      RebuiltToken(c, eventName, value, q);
      TokenIsJudged(c, eventName, IsCounter(eventName, q), q[key]);
    } else if key in DEFAULTS {
      DefaultIsLeft(c, eventName, IsCounter(eventName, q), key);
      RebuiltDefaults(c, eventName, value, q);
    } else {
      RebuiltKeys(c, eventName, value, q, key);
    }
  }

  /** Rebuilt properties rebuild to themselves. */
  lemma PropertiesIdempotent(c: Config, eventName: string, value: Json, q: Fields)
    requires RebuiltProperties(c, eventName, value) == Some(q) && UsablePin(c)
    ensures RebuiltProperties(c, eventName, Obj(q)) == Some(q)
  {
    var judge := JudgeOf(c, eventName, IsCounter(eventName, q));
    forall key | key in q ensures judge(key, q[key]) == if key in DEFAULTS then Leave else Keep(q[key]) {
      RebuiltVerdict(c, eventName, value, q, key);
    }
    RebuiltDefaults(c, eventName, value, q);
    RebuiltToken(c, eventName, value, q);
    RebuiltFrom(c, eventName, value, q);
    KeptStays(judge, q);
    assert Completed(c, eventName, q) == Some(q);
  }

  lemma HourIsCanonical(c: Config, v: Json)
    requires SoundDates(c) && IsCanonicalTimestamp(c, v)
    ensures var kept := KeptTimestamp(c, true, v);
            && IsCanonicalTimestamp(c, kept) && KeptTimestamp(c, true, kept) == kept
            && c.parseDate(kept.s).value % HOUR == 0
  {
    var ms := c.parseDate(v.s).value;
    var hour := ms / HOUR * HOUR;
    assert hour <= ms && hour % HOUR == 0;
    assert MAX_TIME % HOUR == 0;
    assert IsTime(hour);
    assert hour / HOUR * HOUR == hour;
  }

  lemma EnvelopeNames(c: Config, fields: Fields, q: Fields, counter: bool, e: Fields)
    requires "event" in fields && RebuiltEnvelope(c, fields, q, counter) == Some(e)
    ensures e.Keys <= TOP_LEVEL_KEYS
  {
  }

  lemma EnvelopeBody(c: Config, fields: Fields, q: Fields, counter: bool, e: Fields)
    requires "event" in fields && RebuiltEnvelope(c, fields, q, counter) == Some(e)
    ensures "event" in e && e["event"] == fields["event"]
    ensures "properties" in e && e["properties"] == Obj(q)
  {
  }

  lemma EnvelopeOptions(c: Config, fields: Fields, q: Fields, counter: bool, e: Fields)
    requires "event" in fields && RebuiltEnvelope(c, fields, q, counter) == Some(e)
    ensures "uuid" in e <==> "uuid" in fields && !counter
    ensures "offset" in e <==> "offset" in fields && !counter
    ensures "timestamp" in e <==> "timestamp" in fields
  {
  }

  lemma EnvelopeKeys(c: Config, fields: Fields, q: Fields, counter: bool, e: Fields)
    requires "event" in fields && RebuiltEnvelope(c, fields, q, counter) == Some(e)
    ensures e.Keys <= TOP_LEVEL_KEYS && "event" in e && e["event"] == fields["event"]
    ensures "properties" in e && e["properties"] == Obj(q)
    ensures "uuid" in e <==> "uuid" in fields && !counter
    ensures "offset" in e <==> "offset" in fields && !counter
    ensures "timestamp" in e <==> "timestamp" in fields
    ensures "uuid" in e ==> e["uuid"] == fields["uuid"]
    ensures "offset" in e ==> e["offset"] == fields["offset"]
  {
    EnvelopeNames(c, fields, q, counter, e);
    EnvelopeBody(c, fields, q, counter, e);
    EnvelopeOptions(c, fields, q, counter, e);
  }

  lemma EnvelopeTimestamp(c: Config, fields: Fields, q: Fields, counter: bool, e: Fields)
    requires SoundDates(c) && "event" in fields && RebuiltEnvelope(c, fields, q, counter) == Some(e)
    requires "timestamp" in fields
    ensures "timestamp" in e && IsCanonicalTimestamp(c, e["timestamp"])
    ensures KeptTimestamp(c, counter, e["timestamp"]) == e["timestamp"]
    ensures counter ==> c.parseDate(e["timestamp"].s).value % HOUR == 0
  {
    assert e["timestamp"] == KeptTimestamp(c, counter, fields["timestamp"]);
    HourIsCanonical(c, fields["timestamp"]);
  }

  /** The envelope of a rebuilt event rebuilds to itself. */
  lemma EnvelopeIdempotent(c: Config, fields: Fields, q: Fields, counter: bool, e: Fields)
    requires SoundDates(c) && "event" in fields && RebuiltEnvelope(c, fields, q, counter) == Some(e)
    ensures "event" in e && RebuiltEnvelope(c, e, q, counter) == Some(e)
  {
    EnvelopeKeys(c, fields, q, counter, e);
    if "timestamp" in fields {
      EnvelopeTimestamp(c, fields, q, counter, e);
    }
    assert RebuiltEnvelope(c, e, q, counter).Some?;
    SameEnvelope(c, e, q, counter);
  }

  /** An envelope with nothing to drop or to cut stays as it is. */
  lemma SameEnvelope(c: Config, e: Fields, q: Fields, counter: bool)
    requires e.Keys <= TOP_LEVEL_KEYS && "event" in e && "properties" in e && e["properties"] == Obj(q)
    requires RebuiltEnvelope(c, e, q, counter).Some?
    requires counter ==> "uuid" !in e && "offset" !in e
    requires "timestamp" in e ==>
               IsCanonicalTimestamp(c, e["timestamp"]) && KeptTimestamp(c, counter, e["timestamp"]) == e["timestamp"]
    ensures RebuiltEnvelope(c, e, q, counter).value == e
  {
    var t := RebuiltEnvelope(c, e, q, counter).value;
    forall key | key in e ensures key in t && t[key] == e[key] {
      assert key in TOP_LEVEL_KEYS;
    }
    assert t.Keys <= e.Keys;
  }

  lemma RebuiltEventParts(c: Config, value: Json, e: Fields) returns (eventName: string, properties: Json, q: Fields)
    requires RebuiltEvent(c, value) == Some(e)
    ensures value.Obj? && "event" in value.fields && value.fields["event"] == Str(eventName)
    ensures "properties" in value.fields && value.fields["properties"] == properties
    ensures eventName in c.contracts || LifecycleRequired(eventName).Some?
    ensures RebuiltProperties(c, eventName, properties) == Some(q)
    ensures RebuiltEnvelope(c, value.fields, q, IsCounter(eventName, q)) == Some(e)
  {
    eventName := value.fields["event"].s;
    properties := value.fields["properties"];
    q := RebuiltProperties(c, eventName, properties).value;
  }

  /** A rebuilt event rebuilds to itself. */
  lemma EventIdempotent(c: Config, value: Json, e: Fields)
    requires SoundDates(c) && UsablePin(c) && RebuiltEvent(c, value) == Some(e)
    ensures RebuiltEvent(c, Obj(e)) == Some(e)
  {
    var eventName, properties, q := RebuiltEventParts(c, value, e);
    PropertiesIdempotent(c, eventName, properties, q);
    EnvelopeKeys(c, value.fields, q, IsCounter(eventName, q), e);
    EnvelopeIdempotent(c, value.fields, q, IsCounter(eventName, q), e);
  }

  lemma UnusableTokenRejects(c: Config, eventName: string, value: Json, q: Fields)
    requires !UsablePin(c) && RebuiltProperties(c, eventName, value) == Some(q)
    ensures RebuiltProperties(c, eventName, Obj(q)).None?
  {
    RebuiltToken(c, eventName, value, q);
    var counter := IsCounter(eventName, q);
    TokenIsJudged(c, eventName, counter, q["token"]);
    assert JudgeOf(c, eventName, counter)("token", q["token"]).Reject?;
    assert SomeRejected(JudgeOf(c, eventName, counter), q);
  }

  /** With an unusable pin a rebuilt event does not survive a second time. */
  lemma UnusablePinRejects(c: Config, value: Json, e: Fields)
    requires SoundDates(c) && !UsablePin(c) && RebuiltEvent(c, value) == Some(e)
    ensures RebuiltEvent(c, Obj(e)).None?
  {
    var eventName, properties, q := RebuiltEventParts(c, value, e);
    EnvelopeKeys(c, value.fields, q, IsCounter(eventName, q), e);
    UnusableTokenRejects(c, eventName, properties, q);
  }

  lemma {:induction false} SurvivorsComeThrough(sieve: Sieve, candidates: seq<Json>, i: nat) returns (k: nat)
    requires i < |Survivors(sieve, candidates)|
    ensures k < |candidates| && sieve(candidates[k]) == Some(Survivors(sieve, candidates)[i])
  {
    var n := |candidates| - 1;
    if i < |Survivors(sieve, candidates[..n])| {
      k := SurvivorsComeThrough(sieve, candidates[..n], i);
    } else {
      k := n;
    }
  }

  lemma {:induction false} AllSurvive(sieve: Sieve, events: seq<Fields>)
    requires forall i :: 0 <= i < |events| ==> sieve(Obj(events[i])) == Some(events[i])
    ensures Survivors(sieve, Objects(events)) == events
  {
    if events != [] {
      var n := |events| - 1;
      AllSurvive(sieve, events[..n]);
      assert Objects(events)[..n] == Objects(events[..n]);
      assert Objects(events)[n] == Obj(events[n]);
    }
  }

  lemma {:induction false} NoneSurvive(sieve: Sieve, events: seq<Fields>)
    requires forall i :: 0 <= i < |events| ==> sieve(Obj(events[i])).None?
    ensures Survivors(sieve, Objects(events)) == []
  {
    if events != [] {
      var n := |events| - 1;
      NoneSurvive(sieve, events[..n]);
      assert Objects(events)[..n] == Objects(events[..n]);
      assert Objects(events)[n] == Obj(events[n]);
    }
  }

  lemma {:induction false} SurvivorsCount(sieve: Sieve, candidates: seq<Json>)
    ensures |Survivors(sieve, candidates)| <= |candidates|
  {
    if candidates != [] {
      SurvivorsCount(sieve, candidates[..|candidates| - 1]);
    }
  }

  /** An event that goes on is a rebuilt candidate. */
  lemma SurvivorIsRebuilt(c: Config, shape: Shape, candidates: seq<Json>, i: nat) returns (candidate: Json)
    requires i < |Survivors(SieveOf(c, shape), candidates)|
    ensures Survivor(c, shape, candidate) == Some(Survivors(SieveOf(c, shape), candidates)[i])
  {
    var k := SurvivorsComeThrough(SieveOf(c, shape), candidates, i);
    candidate := candidates[k];
  }

  lemma SurvivorAgain(c: Config, shape: Shape, candidate: Json, e: Fields)
    requires SoundDates(c) && Survivor(c, shape, candidate) == Some(e)
    ensures UsablePin(c) ==> Survivor(c, shape, Obj(e)) == Some(e)
    ensures !UsablePin(c) ==> RebuiltEvent(c, Obj(e)).None?
  {
    if UsablePin(c) {
      EventIdempotent(c, candidate, e);
    } else {
      UnusablePinRejects(c, candidate, e);
    }
  }

  lemma RebuiltNames(c: Config, candidate: Json, e: Fields)
    requires RebuiltEvent(c, candidate) == Some(e)
    ensures e.Keys <= TOP_LEVEL_KEYS
  {
    var eventName, properties, q := RebuiltEventParts(c, candidate, e);
    EnvelopeNames(c, candidate.fields, q, IsCounter(eventName, q), e);
  }

  lemma BatchIsNoEventName()
    ensures "batch" !in TOP_LEVEL_KEYS
  {
  }

  lemma PayloadParts(c: Config, body: Json, r: Rebuilt) returns (candidates: seq<Json>)
    requires RebuiltPayload(c, Some(body)) == Some(r)
    ensures Opened(c, body) == Some((r.shape, candidates)) && 0 < |candidates| <= MAX_EVENTS_PER_REQUEST
    ensures r.events == Survivors(SieveOf(c, r.shape), candidates) && (r.shape.Single? ==> |candidates| == 1)
  {
    candidates := Opened(c, body).value.1;
  }

  lemma OneSurvivor(c: Config, shape: Shape, candidate: Json)
    requires !shape.CaptureBatch? && Survivors(SieveOf(c, shape), [candidate]) != []
    ensures |Survivors(SieveOf(c, shape), [candidate])| == 1
    ensures RebuiltEvent(c, candidate) == Some(Survivors(SieveOf(c, shape), [candidate])[0])
  {
    assert [candidate][..0] == [] && Survivors(SieveOf(c, shape), []) == [];
    assert SieveOf(c, shape)(candidate) == RebuiltEvent(c, candidate);
  }

  lemma SingleEvent(c: Config, body: Json, r: Rebuilt) returns (candidate: Json)
    requires SoundDates(c) && RebuiltPayload(c, Some(body)) == Some(r) && r.events != [] && r.shape.Single?
    ensures |r.events| == 1 && RebuiltEvent(c, candidate) == Some(r.events[0])
  {
    var candidates := PayloadParts(c, body, r);
    candidate := candidates[0];
    assert candidates == [candidate];
    OneSurvivor(c, r.shape, candidate);
  }

  lemma SingleOpens(c: Config, body: Json, r: Rebuilt)
    requires SoundDates(c) && RebuiltPayload(c, Some(body)) == Some(r) && r.events != [] && r.shape.Single?
    ensures Opened(c, Upstream(r)) == Some((Single, Objects(r.events)))
  {
    var candidate := SingleEvent(c, body, r);
    RebuiltNames(c, candidate, r.events[0]);
    BatchIsNoEventName();
    assert Objects(r.events) == [Obj(r.events[0])];
  }

  lemma CaptureBatchOpens(c: Config, body: Json, r: Rebuilt)
    requires RebuiltPayload(c, Some(body)) == Some(r) && r.events != [] && r.shape.CaptureBatch?
    ensures UsablePin(c) ==> Opened(c, Upstream(r)) == Some((r.shape, Objects(r.events)))
    ensures !UsablePin(c) ==> Opened(c, Upstream(r)).None?
  {
    assert Opened(c, body).value.0 == r.shape;
    assert c.pinnedToken.Some? ==> r.shape.apiKey == c.pinnedToken.value;
    assert IsCanonicalTimestamp(c, Str(r.shape.sentAt));
    assert Upstream(r).fields.Keys == {"api_key", "batch", "sent_at"};
  }

  /** What goes upstream opens, under a usable pin, in the shape it was sent in. */
  lemma UpstreamOpens(c: Config, body: Json, r: Rebuilt)
    requires SoundDates(c) && RebuiltPayload(c, Some(body)) == Some(r) && r.events != []
    ensures UsablePin(c) ==> Opened(c, Upstream(r)) == Some((r.shape, Objects(r.events)))
    ensures Opened(c, Upstream(r)).Some? ==> Opened(c, Upstream(r)).value.1 == Objects(r.events)
  {
    if r.shape.Single? {
      SingleOpens(c, body, r);
    } else if r.shape.CaptureBatch? {
      CaptureBatchOpens(c, body, r);
    }
  }

  /**
    The sanitizer is idempotent on what it lets through (shape, events and their order) exactly when
    the pinned token, if one is set, has a token's form.
   */
  lemma SanitizerIsIdempotent(c: Config, body: Json, r: Rebuilt)
    requires SoundDates(c) && RebuiltPayload(c, Some(body)) == Some(r) && r.events != []
    ensures RebuiltPayload(c, Some(Upstream(r))) == Some(r) <==> UsablePin(c)
  {
    var (shape, candidates) := Opened(c, body).value;
    UpstreamOpens(c, body, r);
    SurvivorsCount(SieveOf(c, shape), candidates);
    forall i | 0 <= i < |r.events|
      ensures UsablePin(c) ==> Survivor(c, shape, Obj(r.events[i])) == Some(r.events[i])
      ensures !UsablePin(c) ==> RebuiltEvent(c, Obj(r.events[i])).None?
    {
      var candidate := SurvivorIsRebuilt(c, shape, candidates, i);
      SurvivorAgain(c, shape, candidate, r.events[i]);
    }
    if UsablePin(c) {
      AllSurvive(SieveOf(c, shape), r.events);
    } else if Opened(c, Upstream(r)).Some? {
      NoneSurvive(SieveOf(c, Opened(c, Upstream(r)).value.0), r.events);
    }
  }

  // ----- a page view goes on under any pin -----

  const SESSION := Str("01890000-0000-7000-8000-000000000000")
  const TOKEN := "phc_0123456789abcdef"

  /** The tables and the URL parser know this page of the sending origin. */
  predicate Serves(c: Config, path: string)
  {
    && "$pageview" !in c.contracts && c.labelAllowed("app", c.app, "$pageview")
    && c.isRoutePath(path) && |c.origin + path| <= 640
    && c.parseUrl(c.origin + path) == Some(Url(c.origin, path, true, true))
  }

  const VIEW_NAMES: set<string> := {"app", "page_url", "page_path", "$session_id", "$pageview_id"}

  /** The five properties of the page view, and none of the copies of its page that a view may carry. */
  predicate IsPageView(c: Config, path: string, q: Fields)
  {
    && VIEW_NAMES <= q.Keys
    && q["app"] == Str(c.app) && q["page_url"] == Str(c.origin + path) && q["page_path"] == Str(path)
    && q["$session_id"] == SESSION && q["$pageview_id"] == SESSION
    && "$current_url" !in q && "$pathname" !in q && "$prev_pageview_pathname" !in q
  }

  /** A view of the page with nothing else; without a pinned token it brings one along. */
  predicate IsBareView(c: Config, path: string, view: Fields)
  {
    && IsPageView(c, path, view) && view.Keys <= VIEW_NAMES + {"token"}
    && if IsPinned(c) then "token" !in view else "token" in view && view["token"] == Str(TOKEN)
  }

  /** The event of a page view, with nothing beside its name and its properties. */
  predicate IsViewEvent(c: Config, path: string, fields: Fields)
  {
    && fields.Keys == {"event", "properties"} && fields["event"] == Str("$pageview")
    && fields["properties"].Obj? && IsBareView(c, path, fields["properties"].fields)
  }

  function PageView(c: Config, path: string): Fields
  {
    map["app" := Str(c.app), "page_url" := Str(c.origin + path), "page_path" := Str(path),
        "$session_id" := SESSION, "$pageview_id" := SESSION]
    + if IsPinned(c) then map[] else map["token" := Str(TOKEN)]
  }

  lemma PageViewIsBare(c: Config, path: string)
    ensures IsBareView(c, path, PageView(c, path))
  {
  }

  lemma SomeViewEvent(c: Config, path: string) returns (fields: Fields)
    ensures IsViewEvent(c, path, fields)
  {
    PageViewIsBare(c, path);
    fields := map["event" := Str("$pageview"), "properties" := Obj(PageView(c, path))];
  }

  lemma SessionIsUuid()
    ensures IsUuid(SESSION.s, '7', '7')
  {
  }

  lemma TokenHasForm()
    ensures IsProjectToken(TOKEN)
  {
  }

  lemma NamesAreKept(c: Config, path: string)
    requires Serves(c, path)
    ensures var judge := JudgeOf(c, "$pageview", false);
            && judge("app", Str(c.app)) == Keep(Str(c.app))
            && judge("$session_id", SESSION) == Keep(SESSION) && judge("$pageview_id", SESSION) == Keep(SESSION)
  {
    SessionIsUuid();
    SessionNamesApart("$session_id");
    SessionNamesApart("$pageview_id");
  }

  lemma PageIsKept(c: Config, path: string)
    requires Serves(c, path)
    ensures var judge := JudgeOf(c, "$pageview", false);
            && judge("page_path", Str(path)) == Keep(Str(path))
            && judge("page_url", Str(c.origin + path)) == Keep(Str(c.origin + path))
  {
  }

  lemma TokenIsKept(c: Config)
    ensures !IsPinned(c) ==> JudgeOf(c, "$pageview", false)("token", Str(TOKEN)).Keep?
  {
    TokenHasForm();
    TokenIsJudged(c, "$pageview", false, Str(TOKEN));
  }

  lemma ViewNameIsKept(c: Config, path: string, view: Fields, key: string)
    requires Serves(c, path) && IsBareView(c, path, view) && key in VIEW_NAMES
    ensures JudgeOf(c, "$pageview", false)(key, view[key]) == Keep(view[key])
  {
    NamesAreKept(c, path);
    PageIsKept(c, path);
  }

  lemma ViewIsNotRejected(c: Config, path: string, view: Fields)
    requires Serves(c, path) && IsBareView(c, path, view)
    ensures !SomeRejected(JudgeOf(c, "$pageview", false), view)
  {
    var judge := JudgeOf(c, "$pageview", false);
    TokenIsKept(c);
    forall key | key in view ensures !judge(key, view[key]).Reject? {
      if key in VIEW_NAMES {
        ViewNameIsKept(c, path, view, key);
      }
    }
  }

  lemma ViewNamesAreKept(c: Config, path: string, view: Fields)
    requires Serves(c, path) && IsBareView(c, path, view)
    ensures var kept := Kept(JudgeOf(c, "$pageview", false), view);
            forall key :: key in VIEW_NAMES ==> key in kept && kept[key] == view[key]
  {
    var judge := JudgeOf(c, "$pageview", false);
    forall key | key in VIEW_NAMES ensures key in Kept(judge, view) && Kept(judge, view)[key] == view[key] {
      ViewNameIsKept(c, path, view, key);
      KeptKeys(judge, view, key);
    }
  }

  lemma KeptAddsNothing(judge: Judge, properties: Fields)
    ensures Kept(judge, properties).Keys <= properties.Keys + DEFAULTS.Keys
  {
  }

  lemma SameNamesSameView(c: Config, path: string, view: Fields, kept: Fields)
    requires IsBareView(c, path, view) && kept.Keys <= view.Keys + DEFAULTS.Keys
    requires forall key :: key in VIEW_NAMES ==> key in kept && kept[key] == view[key]
    ensures IsPageView(c, path, kept)
  {
  }

  lemma ViewIsKept(c: Config, path: string, view: Fields)
    requires Serves(c, path) && IsBareView(c, path, view)
    ensures var kept := Kept(JudgeOf(c, "$pageview", false), view);
            IsPageView(c, path, kept) && (IsPinned(c) || "token" in kept)
  {
    var judge := JudgeOf(c, "$pageview", false);
    ViewNamesAreKept(c, path, view);
    TokenIsKept(c);
    KeptKeys(judge, view, "token");
    KeptAddsNothing(judge, view);
    SameNamesSameView(c, path, view, Kept(judge, view));
  }

  lemma PageViewIsComplete(c: Config, path: string, q: Fields)
    requires Serves(c, path) && IsPageView(c, path, q)
    ensures IsComplete(c, "$pageview", q)
  {
    assert LifecycleRequired("$pageview") == Some(VIEW_NAMES);
    assert TrustedPageContext(c, q);
  }

  lemma PageViewCompletes(c: Config, path: string, kept: Fields)
    requires Serves(c, path) && IsPageView(c, path, kept) && (IsPinned(c) || "token" in kept)
    ensures Completed(c, "$pageview", kept).Some?
  {
    PageViewIsComplete(c, path, WithToken(c, kept).value);
  }

  lemma CompletedIsRebuilt(c: Config, eventName: string, counter: bool, fields: Fields)
    requires IsCounter(eventName, fields) == counter && !SomeRejected(JudgeOf(c, eventName, counter), fields)
    requires Completed(c, eventName, Kept(JudgeOf(c, eventName, counter), fields)).Some?
    ensures RebuiltProperties(c, eventName, Obj(fields)).Some?
  {
  }

  lemma ViewIsNoCounter(c: Config, path: string, view: Fields)
    requires IsBareView(c, path, view)
    ensures !IsCounter("$pageview", view)
  {
  }

  lemma ViewIsRebuilt(c: Config, path: string, view: Fields)
    requires Serves(c, path) && IsBareView(c, path, view)
    ensures RebuiltProperties(c, "$pageview", Obj(view)).Some?
  {
    ViewIsNoCounter(c, path, view);
    ViewIsNotRejected(c, path, view);
    ViewIsKept(c, path, view);
    PageViewCompletes(c, path, Kept(JudgeOf(c, "$pageview", false), view));
    CompletedIsRebuilt(c, "$pageview", false, view);
  }

  lemma BareEnvelope(c: Config, fields: Fields, q: Fields, counter: bool)
    requires "event" in fields && fields.Keys <= {"event", "properties"}
    ensures RebuiltEnvelope(c, fields, q, counter).Some?
  {
    assert "uuid" !in fields && "timestamp" !in fields && "offset" !in fields;
  }

  lemma BareEventGoesOn(c: Config, eventName: string, properties: Fields, fields: Fields) returns (e: Fields)
    requires LifecycleRequired(eventName).Some? && RebuiltProperties(c, eventName, Obj(properties)).Some?
    requires fields.Keys == {"event", "properties"}
    requires fields["event"] == Str(eventName) && fields["properties"] == Obj(properties)
    ensures RebuiltEvent(c, Obj(fields)) == Some(e)
  {
    var q := RebuiltProperties(c, eventName, Obj(properties)).value;
    BareEnvelope(c, fields, q, IsCounter(eventName, q));
    e := RebuiltEnvelope(c, fields, q, IsCounter(eventName, q)).value;
  }

  /** A single payload goes on as its one event does. */
  lemma SinglePayload(c: Config, fields: Fields, e: Fields)
    requires "batch" !in fields && RebuiltEvent(c, Obj(fields)) == Some(e)
    ensures RebuiltPayload(c, Some(Obj(fields))) == Some(Rebuilt(Single, [e]))
  {
    var sieve := SieveOf(c, Single);
    assert sieve(Obj(fields)) == Some(e);
    assert [Obj(fields)][..0] == [] && Survivors(sieve, []) == [];
    assert Survivors(sieve, [Obj(fields)]) == [e];
    assert Opened(c, Obj(fields)) == Some((Single, [Obj(fields)]));
  }

  lemma ViewEventParts(c: Config, path: string, fields: Fields) returns (eventName: string, view: Fields)
    requires IsViewEvent(c, path, fields)
    ensures eventName == "$pageview" && LifecycleRequired(eventName).Some? && IsBareView(c, path, view)
    ensures fields.Keys == {"event", "properties"} && "batch" !in fields
    ensures fields["event"] == Str(eventName) && fields["properties"] == Obj(view)
  {
    eventName, view := "$pageview", fields["properties"].fields;
  }

  lemma ViewEventGoesOn(c: Config, path: string, fields: Fields) returns (r: Rebuilt)
    requires Serves(c, path) && IsViewEvent(c, path, fields)
    ensures RebuiltPayload(c, Some(Obj(fields))) == Some(r) && |r.events| == 1
  {
    var eventName, view := ViewEventParts(c, path, fields);
    ViewIsRebuilt(c, path, view);
    var e := BareEventGoesOn(c, eventName, view, fields);
    SinglePayload(c, fields, e);
    r := Rebuilt(Single, [e]);
  }

  /** Whatever goes on would go on unchanged if it were sent again. */
  ghost predicate IsIdempotent(c: Config)
  {
    forall body, r :: RebuiltPayload(c, Some(body)) == Some(r) && r.events != [] ==>
      RebuiltPayload(c, Some(Upstream(r))) == Some(r)
  }

  /** A sanitizer that serves any page at all is idempotent exactly when its pin is usable. */
  lemma IdempotentIffPinIsUsable(c: Config, path: string)
    requires SoundDates(c) && Serves(c, path)
    ensures IsIdempotent(c) <==> UsablePin(c)
  {
    var fields := SomeViewEvent(c, path);
    var seen := ViewEventGoesOn(c, path, fields);
    SanitizerIsIdempotent(c, Obj(fields), seen);
    forall body, r | UsablePin(c) && RebuiltPayload(c, Some(body)) == Some(r) && r.events != []
      ensures RebuiltPayload(c, Some(Upstream(r))) == Some(r)
    {
      SanitizerIsIdempotent(c, body, r);
    }
  }

  const PERSONAL_KEY := "phx_operator"

  /** Under a pinned personal key the page view goes on, and what goes on does not come back as it is. */
  lemma PersonalKeyBreaksIdempotence(c: Config, path: string) returns (body: Json, r: Rebuilt)
    requires SoundDates(c) && Serves(c, path) && c.pinnedToken == Some(PERSONAL_KEY)
    ensures body.Obj? && IsViewEvent(c, path, body.fields)
    ensures RebuiltPayload(c, Some(body)) == Some(r) && |r.events| == 1
    ensures RebuiltPayload(c, Some(Upstream(r))) != Some(r)
  {
    var fields := SomeViewEvent(c, path);
    body := Obj(fields);
    r := ViewEventGoesOn(c, path, fields);
    SanitizerIsIdempotent(c, body, r);
  }

  // ----- attribution counters -----

  /**
    An attribution counter that goes on carries no event id, no offset and no session or page-view
    id, and its timestamp falls on an hour.
   */
  lemma CountersAreUnlinkable(c: Config, candidate: Json, e: Fields)
    requires SoundDates(c) && RebuiltEvent(c, candidate) == Some(e)
    ensures "event" in e && e["event"].Str? && "properties" in e && e["properties"].Obj?
    ensures IsCounter(e["event"].s, e["properties"].fields) ==>
              && "uuid" !in e && "offset" !in e && e["properties"].fields.Keys !! SESSION_NAMES
              && ("timestamp" in e ==>
                    && e["timestamp"].Str? && c.parseDate(e["timestamp"].s).Some?
                    && c.parseDate(e["timestamp"].s).value % HOUR == 0)
  {
    var eventName, properties, q := RebuiltEventParts(c, candidate, e);
    EnvelopeKeys(c, candidate.fields, q, IsCounter(eventName, q), e);
    if "timestamp" in candidate.fields {
      EnvelopeTimestamp(c, candidate.fields, q, IsCounter(eventName, q), e);
    }
    CounterKept(c, eventName, properties, q);
    if IsCounter(eventName, q) {
      forall name | name in SESSION_NAMES ensures name !in q {
        NoSessionName(c, eventName, properties, q, name);
      }
    }
  }

  lemma NoSessionName(c: Config, eventName: string, value: Json, q: Fields, name: string)
    requires RebuiltProperties(c, eventName, value) == Some(q) && IsCounter(eventName, q) && name in SESSION_NAMES
    ensures name !in q
  {
    CounterKept(c, eventName, value, q);
    RebuiltKeys(c, eventName, value, q, name);
    if name in value.fields {
      SessionIsNotKept(c, eventName, name, value.fields[name]);
    }
  }

  /** Every event of a capture batch goes on under the batch's own key. */
  lemma CaptureBatchSharesItsKey(c: Config, body: Json, r: Rebuilt, i: nat)
    requires RebuiltPayload(c, Some(body)) == Some(r) && r.shape.CaptureBatch? && i < |r.events|
    ensures TokenOf(r.events[i]) == Some(Str(r.shape.apiKey))
    ensures c.pinnedToken.Some? ==> r.shape.apiKey == c.pinnedToken.value
  {
    var candidates := PayloadParts(c, body, r);
    var candidate := SurvivorIsRebuilt(c, r.shape, candidates, i);
  }
}
