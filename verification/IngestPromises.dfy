/** Exactly what the ingest sanitizer forwards, field by field, and in what form. */
module IngestPromises {
  import opened Wrappers
  import opened Json
  import opened IngestSanitizer

  // ----- shapes of values -----

  predicate IsHexDigits(s: string)
  {
    forall x :: x in s ==> x in "0123456789abcdefABCDEF"
  }

  lemma HexDigitsAre(x: char)
    ensures IsHexDigit(x) <==> x in "0123456789abcdefABCDEF"
  {
    var digits := "0123456789abcdefABCDEF";
    if '0' <= x <= '9' {
      assert digits[x as int - '0' as int] == x;
    } else if 'a' <= x <= 'f' {
      assert digits[10 + x as int - 'a' as int] == x;
    } else if 'A' <= x <= 'F' {
      assert digits[16 + x as int - 'A' as int] == x;
    }
  }

  ghost predicate IsDigitRun(s: string, lo: nat, hi: nat)
    requires lo <= hi <= |s|
  {
    forall i :: lo <= i < hi ==> IsHexDigit(s[i])
  }

  lemma RunIsHexDigits(s: string, lo: nat, hi: nat)
    requires lo <= hi <= |s|
    ensures IsDigitRun(s, lo, hi) <==> IsHexDigits(s[lo..hi])
  {
    forall x ensures IsHexDigit(x) <==> x in "0123456789abcdefABCDEF" {
      HexDigitsAre(x);
    }
    if IsDigitRun(s, lo, hi) {
      forall x | x in s[lo..hi] ensures x in "0123456789abcdefABCDEF" {
        var i :| 0 <= i < hi - lo && s[lo..hi][i] == x;
        assert s[lo + i] == x;
      }
    }
    if IsHexDigits(s[lo..hi]) {
      forall i | lo <= i < hi ensures IsHexDigit(s[i]) {
        assert s[lo..hi][i - lo] == s[i];
        assert s[i] in s[lo..hi];
      }
    }
  }

  /** Digits everywhere but at the four places of the dashes. */
  ghost predicate IsDashed(s: string)
  {
    && |s| == 36 && s[8] == s[13] == s[18] == s[23] == '-'
    && IsDigitRun(s, 0, 8) && IsDigitRun(s, 9, 13) && IsDigitRun(s, 14, 18) && IsDigitRun(s, 19, 23)
    && IsDigitRun(s, 24, 36)
  }

  lemma UuidIsDashed(s: string, low: char, high: char)
    ensures IsUuid(s, low, high) <==> IsDashed(s) && low <= s[14] <= high && s[19] in "89abAB"
  {
    if IsUuid(s, low, high) {
      assert s[19] in "89abAB" by {
        var variants := "89abAB";
        assert variants[0] == '8' && variants[1] == '9' && variants[2] == 'a' && variants[3] == 'b';
        assert variants[4] == 'A' && variants[5] == 'B';
      }
    }
  }

  lemma DashedGroups(s: string)
    requires IsDashed(s)
    ensures HasGroups(s, s[0..8], s[9..13], s[14..18], s[19..23], s[24..36])
  {
    RunIsHexDigits(s, 0, 8);
    RunIsHexDigits(s, 9, 13);
    RunIsHexDigits(s, 14, 18);
    RunIsHexDigits(s, 19, 23);
    RunIsHexDigits(s, 24, 36);
  }

  ghost predicate HasGroups(s: string, a: string, b: string, c: string, d: string, e: string)
  {
    && s == a + "-" + b + "-" + c + "-" + d + "-" + e
    && |a| == 8 && |b| == |c| == |d| == 4 && |e| == 12
    && IsHexDigits(a) && IsHexDigits(b) && IsHexDigits(c) && IsHexDigits(d) && IsHexDigits(e)
  }

  lemma GroupsAreDashed(s: string, a: string, b: string, c: string, d: string, e: string)
    requires HasGroups(s, a, b, c, d, e)
    ensures IsDashed(s) && s[14] == c[0] && s[19] == d[0]
  {
    assert s[0..8] == a && s[9..13] == b && s[14..18] == c && s[19..23] == d && s[24..36] == e;
    RunIsHexDigits(s, 0, 8);
    RunIsHexDigits(s, 9, 13);
    RunIsHexDigits(s, 14, 18);
    RunIsHexDigits(s, 19, 23);
    RunIsHexDigits(s, 24, 36);
  }

  /** A UUID in groups of 8, 4, 4, 4 and 12 hexadecimal digits, of one of these versions and variant 8 to b. */
  ghost predicate HasUuidForm(s: string, versions: string)
  {
    exists a, b, c, d, e :: HasGroups(s, a, b, c, d, e) && c[0] in versions && d[0] in "89abAB"
  }

  lemma UuidsHaveForm(s: string)
    ensures IsUuid(s, '7', '7') <==> HasUuidForm(s, "7")
    ensures IsUuid(s, '1', '8') <==> HasUuidForm(s, "12345678")
  {
    UuidIsDashed(s, '7', '7');
    UuidIsDashed(s, '1', '8');
    forall x: char ensures x in "12345678" <==> '1' <= x <= '8' {
      var versions := "12345678";
      if '1' <= x <= '8' {
        assert versions[x as int - '1' as int] == x;
      }
    }
    assert forall x: char :: x in "7" <==> x == '7';
    if IsDashed(s) {
      DashedGroups(s);
    }
    forall a, b, c, d, e | HasGroups(s, a, b, c, d, e) ensures IsDashed(s) && s[14] == c[0] && s[19] == d[0] {
      GroupsAreDashed(s, a, b, c, d, e);
    }
  }

  /** A project token: "phc_" and sixteen to sixty-four letters and digits. */
  ghost predicate HasTokenForm(s: string)
  {
    exists rest :: s == "phc_" + rest && 16 <= |rest| <= 64 &&
                   forall x :: x in rest ==> 'a' <= x <= 'z' || 'A' <= x <= 'Z' || '0' <= x <= '9'
  }

  lemma TokensHaveForm(s: string)
    ensures IsProjectToken(s) <==> HasTokenForm(s)
  {
    if IsProjectToken(s) {
      var rest := s[4..];
      assert s == "phc_" + rest;
      forall x | x in rest ensures IsAlphanumeric(x) {
        var i :| 0 <= i < |rest| && rest[i] == x;
        assert s[4 + i] == x;
      }
    }
    if rest :| s == "phc_" + rest && 16 <= |rest| <= 64 &&
               forall x :: x in rest ==> 'a' <= x <= 'z' || 'A' <= x <= 'Z' || '0' <= x <= '9' {
      assert s[..4] == "phc_";
      forall i | 4 <= i < |s| ensures IsAlphanumeric(s[i]) {
        assert s[i] == rest[i - 4];
        assert rest[i - 4] in rest;
      }
    }
  }

  // ----- what each property may hold -----

  /** The documented short labels. */
  predicate IsLabelName(key: string)
  {
    || key in {"event_name", "app", "network", "status", "latency_bucket", "count", "time_bucket", "surface", "action"}
    || key in {"step", "mode", "rail", "method", "event_family", "count_bucket", "result_count_bucket"}
    || key in {"amount_bucket", "product_type", "declaration_class", "delivery_route", "ack_outcome"}
    || key in {"repair_outcome", "block_reason", "handoff_stage", "partner_code", "source_domain", "source_method"}
  }

  predicate IsPageName(key: string)
  {
    key in {"page_url", "page_path"}
  }

  predicate IsSessionName(key: string)
  {
    key in {"$session_id", "$pageview_id", "$prev_pageview_id"}
  }

  /**
    The labels and page properties that an event lists: those of its contract, which always include the
    four base ones, or, for an event without a contract, the app and the page.
   */
  ghost predicate IsListed(c: Config, eventName: string, key: string)
  {
    if eventName in c.contracts then
      || key in {"event_name", "app", "page_url", "page_path"}
      || key in c.contracts[eventName].required || key in c.contracts[eventName].optional
    else key == "app" || IsPageName(key)
  }

  /** A route of the site; the page of one product only where a page view is reported. */
  ghost predicate IsRoute(c: Config, eventName: string, path: string)
  {
    c.isRoutePath(path) && (c.isProductPath(path) ==> eventName == "$pageview")
  }

  /** A bare address of such a route on an official host, spelled as origin and path, of at most 640 characters. */
  ghost predicate IsPage(c: Config, eventName: string, url: string)
  {
    |url| <= 640 && exists origin, path ::
      url == origin + path && c.parseUrl(url) == Some(Url(origin, path, true, true)) && IsRoute(c, eventName, path)
  }

  ghost predicate IsBetween(v: Json, max: real)
  {
    v.Number? && 0.0 <= v.n && v.n <= max
  }

  /** Measures that only two of the lifecycle events have, each in its range. */
  ghost predicate IsMeasure(c: Config, eventName: string, key: string, v: Json)
  {
    || (eventName == "$pageleave" && key == "$prev_pageview_pathname" && v.Str? && IsRoute(c, eventName, v.s))
    || (eventName == "$pageleave" && key == "$prev_pageview_duration" && IsBetween(v, 86_400.0))
    || (eventName == "$pageleave" && IsBetween(v, 1.0) &&
        key in {"$prev_pageview_last_content_percentage", "$prev_pageview_last_scroll_percentage",
                "$prev_pageview_max_content_percentage", "$prev_pageview_max_scroll_percentage"})
    || (eventName == "$web_vitals" && IsBetween(v, 900_000.0) &&
        key in {"$web_vitals_CLS_value", "$web_vitals_FCP_value", "$web_vitals_INP_value", "$web_vitals_LCP_value"})
  }

  /** A property an event may come with: its name is listed for the event, and its value is in that name's range. */
  ghost predicate MayCarry(c: Config, eventName: string, key: string, v: Json)
  {
    if key == "distinct_id" then v == Str("conduit-browser-telemetry")
    else if key == "$process_person_profile" then v == Bool(false)
    else if key == "token" then
      && v.Str? && HasTokenForm(v.s)
      && (c.pinnedToken.Some? && c.pinnedToken.value != "" ==> v.s == c.pinnedToken.value)
    else if IsLabelName(key) then IsListed(c, eventName, key) && v.Str? && c.labelAllowed(key, v.s, eventName)
    else if key == "page_path" then IsListed(c, eventName, key) && v.Str? && IsRoute(c, eventName, v.s)
    else if key == "page_url" then IsListed(c, eventName, key) && v.Str? && IsPage(c, eventName, v.s)
    else if key == "$pathname" then v.Str? && IsRoute(c, eventName, v.s)
    else if key == "$current_url" then v.Str? && IsPage(c, eventName, v.s)
    else if IsSessionName(key) then v.Str? && HasUuidForm(v.s, "7")
    else IsMeasure(c, eventName, key, v)
  }

  /** The verdict in those terms: what may not be carried is rejected, and what may is kept as it is, or left out. */
  ghost predicate IsVerdict(c: Config, eventName: string, counter: bool, key: string, v: Json, verdict: Verdict)
  {
    if !MayCarry(c, eventName, key, v) then verdict == Reject
    else if key == "distinct_id" || key == "$process_person_profile" then verdict == Leave
    else if key == "token" then verdict == Keep(Str(if c.pinnedToken.Some? then c.pinnedToken.value else v.s))
    else if IsSessionName(key) && counter then verdict == Leave
    else verdict == Keep(v)
  }

  lemma RoutesAreRoutes(c: Config, eventName: string, v: Json)
    ensures IsPagePath(c, v, eventName) <==> v.Str? && IsRoute(c, eventName, v.s)
  {
  }

  lemma PagesArePages(c: Config, eventName: string, v: Json)
    ensures IsPageUrl(c, v, eventName) <==> v.Str? && IsPage(c, eventName, v.s)
  {
    if IsPageUrl(c, v, eventName) {
      var url := c.parseUrl(v.s).value;
      assert c.parseUrl(v.s) == Some(Url(url.origin, url.pathname, true, true));
    }
  }

  lemma LabelNames(key: string)
    ensures key in LABEL_NAMES <==> IsLabelName(key)
  {
  }

  lemma SpecialVerdict(c: Config, eventName: string, counter: bool, key: string, v: Json)
    requires key in {"distinct_id", "$process_person_profile", "token"}
    ensures IsVerdict(c, eventName, counter, key, v, PropertyVerdict(c, eventName, counter, key, v))
  {
    if v.Str? {
      TokensHaveForm(v.s);
    }
  }

  lemma LabelVerdict(c: Config, eventName: string, counter: bool, key: string, v: Json)
    requires IsLabelName(key)
    ensures IsVerdict(c, eventName, counter, key, v, PropertyVerdict(c, eventName, counter, key, v))
  {
    LabelNames(key);
    LabelsApart(key);
  }

  lemma LabelsApart(key: string)
    requires IsLabelName(key)
    ensures key in PROPERTY_NAMES && !IsSessionName(key) && !IsPageName(key)
    ensures key !in {"distinct_id", "$process_person_profile", "token", "$pathname", "$current_url"}
  {
    LabelNames(key);
  }

  lemma PageVerdict(c: Config, eventName: string, counter: bool, key: string, v: Json)
    requires key in {"page_path", "page_url", "$pathname", "$current_url"}
    ensures IsVerdict(c, eventName, counter, key, v, PropertyVerdict(c, eventName, counter, key, v))
  {
    LabelNames(key);
    RoutesAreRoutes(c, eventName, v);
    PagesArePages(c, eventName, v);
  }

  lemma OtherVerdict(c: Config, eventName: string, counter: bool, key: string, v: Json)
    requires !IsLabelName(key) && key !in {"distinct_id", "$process_person_profile", "token"}
    requires key !in {"page_path", "page_url", "$pathname", "$current_url"}
    ensures IsVerdict(c, eventName, counter, key, v, PropertyVerdict(c, eventName, counter, key, v))
  {
    LabelNames(key);
    RoutesAreRoutes(c, eventName, v);
    if v.Str? {
      UuidsHaveForm(v.s);
    }
  }

  lemma VerdictExactly(c: Config, eventName: string, counter: bool, key: string, v: Json)
    ensures IsVerdict(c, eventName, counter, key, v, PropertyVerdict(c, eventName, counter, key, v))
  {
    if key in {"distinct_id", "$process_person_profile", "token"} {
      SpecialVerdict(c, eventName, counter, key, v);
    } else if IsLabelName(key) {
      LabelVerdict(c, eventName, counter, key, v);
    } else if key in {"page_path", "page_url", "$pathname", "$current_url"} {
      PageVerdict(c, eventName, counter, key, v);
    } else {
      OtherVerdict(c, eventName, counter, key, v);
    }
  }

  // ----- which properties go on, and as what -----

  /** An event that counts attributions goes on without what could link it to a session. */
  ghost predicate CountsAttribution(eventName: string, fields: Fields)
  {
    || eventName == "checkout_handoff_result"
    || exists key :: key in fields && key in {"source_method", "source_domain", "partner_code"}
  }

  /** A token comes with the event, or is pinned. */
  ghost predicate HasToken(c: Config, fields: Fields)
  {
    "token" in fields || (c.pinnedToken.Some? && c.pinnedToken.value != "")
  }

  /** The names that go on: two fixed ones, the token, and the rest but for session names of counted attributions. */
  ghost predicate GoesOnAs(eventName: string, fields: Fields, key: string)
  {
    || key in {"distinct_id", "$process_person_profile", "token"}
    || (key in fields && !(IsSessionName(key) && CountsAttribution(eventName, fields)))
  }

  /** What goes on: those names, anonymous, under the pinned token or else the given one, all else unchanged. */
  ghost predicate IsOutcome(c: Config, eventName: string, fields: Fields, q: Fields)
    requires HasToken(c, fields)
  {
    && (forall key :: key in q <==> GoesOnAs(eventName, fields, key))
    && q["distinct_id"] == Str("conduit-browser-telemetry") && q["$process_person_profile"] == Bool(false)
    && q["token"] == (if c.pinnedToken.Some? then Str(c.pinnedToken.value) else fields["token"])
    && forall key :: key in q && key !in {"distinct_id", "$process_person_profile", "token"} ==> q[key] == fields[key]
  }

  /** The names an event cannot do without: those its contract requires, or those of its lifecycle event. */
  ghost predicate HasNames(c: Config, eventName: string, q: Fields)
  {
    if eventName in c.contracts then
      && c.attributionValid(q) && {"event_name", "app", "page_url", "page_path"} <= q.Keys
      && forall key :: key in c.contracts[eventName].required ==> key in q
    else
      && eventName in {"$pageview", "$pageleave", "$web_vitals"}
      && {"app", "page_url", "page_path", "$session_id"} <= q.Keys
      && (eventName == "$pageview" ==> "$pageview_id" in q)
  }

  ghost predicate HasVitals(eventName: string, q: Fields)
  {
    eventName == "$web_vitals" ==>
      exists key :: key in q && key in {"$web_vitals_CLS_value", "$web_vitals_FCP_value", "$web_vitals_INP_value",
                                        "$web_vitals_LCP_value"}
  }

  /** The event names the sending app and a page of the sending origin, and copies of either agree. */
  ghost predicate NamesItsPage(c: Config, q: Fields)
  {
    && "app" in q && q["app"] == Str(c.app)
    && exists url, parsed ::
         && "page_url" in q && q["page_url"] == Str(url) && c.parseUrl(url) == Some(parsed)
         && parsed.origin == c.origin && "page_path" in q && q["page_path"] == Str(parsed.pathname)
         && ("$current_url" in q ==> q["$current_url"] == Str(url))
         && ("$pathname" in q ==> q["$pathname"] == Str(parsed.pathname))
         && ("$prev_pageview_pathname" in q ==> q["$prev_pageview_pathname"] == Str(parsed.pathname))
  }

  lemma CountersAre(eventName: string, fields: Fields)
    ensures IsCounter(eventName, fields) <==> CountsAttribution(eventName, fields)
  {
    if IsCounter(eventName, fields) && eventName != "checkout_handoff_result" {
      var key := if "source_method" in fields then "source_method"
                 else if "source_domain" in fields then "source_domain" else "partner_code";
      assert key in fields && key in {"source_method", "source_domain", "partner_code"};
    }
  }

  lemma PageContextIs(c: Config, q: Fields)
    ensures TrustedPageContext(c, q) <==> NamesItsPage(c, q)
  {
    if TrustedPageContext(c, q) {
      var parsed := c.parseUrl(q["page_url"].s).value;
      assert q["page_url"] == Str(q["page_url"].s) && q["page_path"] == Str(parsed.pathname);
    }
  }

  lemma RequiredIs(c: Config, eventName: string, q: Fields)
    ensures IsComplete(c, eventName, q) <==> HasNames(c, eventName, q) && HasVitals(eventName, q) && NamesItsPage(c, q)
  {
    PageContextIs(c, q);
    if eventName in c.contracts {
      NamesOfContract(c, eventName, q);
    } else {
      NamesOfLifecycle(c, eventName, q);
    }
  }

  lemma NamesOfContract(c: Config, eventName: string, q: Fields)
    requires eventName in c.contracts
    ensures BASE_NAMES + c.contracts[eventName].required <= q.Keys <==>
              && {"event_name", "app", "page_url", "page_path"} <= q.Keys
              && forall key :: key in c.contracts[eventName].required ==> key in q
  {
    var base, required := BASE_NAMES, c.contracts[eventName].required;
    assert base + required <= q.Keys <==> base <= q.Keys && required <= q.Keys;
  }

  lemma NamesOfLifecycle(c: Config, eventName: string, q: Fields)
    requires eventName !in c.contracts
    ensures LifecycleRequired(eventName).Some? && LifecycleRequired(eventName).value <= q.Keys <==>
            HasNames(c, eventName, q)
  {
  }

  lemma RejectedIs(c: Config, eventName: string, fields: Fields)
    ensures SomeRejected(JudgeOf(c, eventName, IsCounter(eventName, fields)), fields) <==>
              exists key :: key in fields && !MayCarry(c, eventName, key, fields[key])
  {
    var judge := JudgeOf(c, eventName, IsCounter(eventName, fields));
    forall key | key in fields
      ensures judge(key, fields[key]).Reject? <==> !MayCarry(c, eventName, key, fields[key])
    {
      VerdictExactly(c, eventName, IsCounter(eventName, fields), key, fields[key]);
    }
  }

  /** A kept property, in the terms of what goes on. */
  lemma KeptIs(c: Config, eventName: string, fields: Fields, key: string)
    requires forall k :: k in fields ==> MayCarry(c, eventName, k, fields[k])
    requires key !in {"distinct_id", "$process_person_profile"}
    ensures var kept := Kept(JudgeOf(c, eventName, IsCounter(eventName, fields)), fields);
            && (key in kept <==> key in fields && !(IsSessionName(key) && CountsAttribution(eventName, fields)))
            && (key in kept && key != "token" ==> kept[key] == fields[key])
            && (key in kept && key == "token" ==>
                  kept[key] == if c.pinnedToken.Some? then Str(c.pinnedToken.value) else fields[key])
  {
    var counter := IsCounter(eventName, fields);
    CountersAre(eventName, fields);
    KeptKeys(JudgeOf(c, eventName, counter), fields, key);
    if key in fields {
      VerdictExactly(c, eventName, counter, key, fields[key]);
    }
  }

  lemma KeptDefaults(c: Config, eventName: string, fields: Fields)
    ensures var kept := Kept(JudgeOf(c, eventName, IsCounter(eventName, fields)), fields);
            && "distinct_id" in kept && kept["distinct_id"] == Str("conduit-browser-telemetry")
            && "$process_person_profile" in kept && kept["$process_person_profile"] == Bool(false)
  {
    DefaultsAreLeft(c, eventName, IsCounter(eventName, fields));
  }

  lemma OutcomeIs(c: Config, eventName: string, fields: Fields, q: Fields)
    requires HasToken(c, fields) && forall key :: key in fields ==> MayCarry(c, eventName, key, fields[key])
    ensures WithToken(c, Kept(JudgeOf(c, eventName, IsCounter(eventName, fields)), fields)) == Some(q) <==>
            IsOutcome(c, eventName, fields, q)
  {
    var kept := Kept(JudgeOf(c, eventName, IsCounter(eventName, fields)), fields);
    KeptDefaults(c, eventName, fields);
    KeptIs(c, eventName, fields, "token");
    var made := WithToken(c, kept).value;
    forall key
      ensures key in made <==> GoesOnAs(eventName, fields, key)
      ensures key in made && key !in {"distinct_id", "$process_person_profile", "token"} ==> made[key] == fields[key]
    {
      if key !in {"distinct_id", "$process_person_profile"} {
        KeptIs(c, eventName, fields, key);
      }
    }
    assert IsOutcome(c, eventName, fields, made);
    if IsOutcome(c, eventName, fields, q) {
      OutcomeUnique(c, eventName, fields, made, q);
    }
  }

  lemma OutcomeUnique(c: Config, eventName: string, fields: Fields, a: Fields, b: Fields)
    requires HasToken(c, fields) && IsOutcome(c, eventName, fields, a) && IsOutcome(c, eventName, fields, b)
    ensures a == b
  {
    forall key ensures key in a <==> key in b {
      assert key in a <==> GoesOnAs(eventName, fields, key);
      assert key in b <==> GoesOnAs(eventName, fields, key);
    }
    assert a.Keys == b.Keys;
  }

  /**
    Exactly which properties go on, and as what: an object, each of whose properties may be carried by
    the event, with a token, all required names and its own page; anonymous, under the pinned token if
    there is one, and otherwise unchanged.
   */
  lemma PropertiesGoOnExactly(c: Config, eventName: string, value: Json, q: Fields)
    ensures RebuiltProperties(c, eventName, value) == Some(q) <==>
              && value.Obj? && HasToken(c, value.fields)
              && (forall key :: key in value.fields ==> MayCarry(c, eventName, key, value.fields[key]))
              && IsOutcome(c, eventName, value.fields, q)
              && HasNames(c, eventName, q) && HasVitals(eventName, q) && NamesItsPage(c, q)
  {
    if value.Obj? {
      var fields := value.fields;
      RejectedIs(c, eventName, fields);
      RequiredIs(c, eventName, q);
      if forall key :: key in fields ==> MayCarry(c, eventName, key, fields[key]) {
        KeptIs(c, eventName, fields, "token");
        if HasToken(c, fields) {
          OutcomeIs(c, eventName, fields, q);
        }
      }
    }
  }

  lemma OutcomeToken(c: Config, eventName: string, fields: Fields, q: Fields)
    requires HasToken(c, fields) && IsOutcome(c, eventName, fields, q)
    requires "token" in fields ==> MayCarry(c, eventName, "token", fields["token"])
    ensures "distinct_id" in q && "$process_person_profile" in q && "token" in q && q["token"].Str?
    ensures if c.pinnedToken.Some? then q["token"].s == c.pinnedToken.value else HasTokenForm(q["token"].s)
  {
    assert GoesOnAs(eventName, fields, "token");
  }

  lemma OutcomeCarries(c: Config, eventName: string, fields: Fields, q: Fields)
    requires HasToken(c, fields) && IsOutcome(c, eventName, fields, q)
    requires forall key :: key in fields ==> MayCarry(c, eventName, key, fields[key])
    ensures forall key :: key in q && key !in {"distinct_id", "$process_person_profile", "token"} ==>
              MayCarry(c, eventName, key, q[key])
  {
    forall key | key in q && key !in {"distinct_id", "$process_person_profile", "token"}
      ensures MayCarry(c, eventName, key, q[key])
    {
      assert GoesOnAs(eventName, fields, key) && q[key] == fields[key];
    }
  }

  /**
    What is forwarded is anonymous, carries the pinned token or one of the right form, names the sending
    app and a page of the sending origin, and otherwise holds only what the event may carry.
   */
  lemma ForwardedIsClean(c: Config, eventName: string, value: Json, q: Fields)
    requires RebuiltProperties(c, eventName, value) == Some(q)
    ensures "distinct_id" in q && q["distinct_id"] == Str("conduit-browser-telemetry")
    ensures "$process_person_profile" in q && q["$process_person_profile"] == Bool(false)
    ensures "token" in q && q["token"].Str?
    ensures if c.pinnedToken.Some? then q["token"].s == c.pinnedToken.value else HasTokenForm(q["token"].s)
    ensures NamesItsPage(c, q)
    ensures forall key :: key in q && key !in {"distinct_id", "$process_person_profile", "token"} ==>
              MayCarry(c, eventName, key, q[key])
  {
    PropertiesGoOnExactly(c, eventName, value, q);
    OutcomeToken(c, eventName, value.fields, q);
    OutcomeCarries(c, eventName, value.fields, q);
  }

  /** So every label that goes on is one that came, with the value it came with. */
  lemma LabelsGoOnUnchanged(c: Config, eventName: string, value: Json, q: Fields, key: string)
    requires RebuiltProperties(c, eventName, value) == Some(q) && IsLabelName(key)
    ensures value.Obj? && (key in q <==> key in value.fields) && (key in q ==> q[key] == value.fields[key])
  {
    PropertiesGoOnExactly(c, eventName, value, q);
    LabelsApart(key);
  }

  // ----- which events go on, and as what -----

  /** A moment as the language prints it. */
  ghost predicate IsMoment(c: Config, v: Json)
  {
    v.Str? && |v.s| <= 40 && c.parseDate(v.s).Some? && c.isoDate(c.parseDate(v.s).value) == v.s
  }

  /** The moment itself, or, where attributions are counted, the full hour before it. */
  ghost predicate IsKeptMoment(c: Config, counts: bool, v: Json, kept: Json)
    requires IsMoment(c, v)
  {
    if counts then
      exists hour: int :: hour % 3_600_000 == 0 && hour <= c.parseDate(v.s).value < hour + 3_600_000 &&
                          kept == Str(c.isoDate(hour))
    else kept == v
  }

  /** The event's own fields, as far as they are given, are well formed. */
  ghost predicate HasGoodEnvelope(c: Config, fields: Fields)
  {
    && ("uuid" in fields ==> fields["uuid"].Str? && HasUuidForm(fields["uuid"].s, "12345678"))
    && ("timestamp" in fields ==> IsMoment(c, fields["timestamp"]))
    && ("offset" in fields ==> IsBetween(fields["offset"], 86_400_000.0))
  }

  /** The event that goes on: its name, its properties, and of its own fields what is given and may be kept. */
  ghost predicate IsEnvelope(c: Config, fields: Fields, q: Fields, counts: bool, e: Fields)
    requires HasGoodEnvelope(c, fields) && "event" in fields
  {
    && e.Keys <= {"event", "properties", "uuid", "timestamp", "offset"}
    && "event" in e && e["event"] == fields["event"] && "properties" in e && e["properties"] == Obj(q)
    && ("uuid" in e <==> "uuid" in fields && !counts) && ("uuid" in e ==> e["uuid"] == fields["uuid"])
    && ("offset" in e <==> "offset" in fields && !counts) && ("offset" in e ==> e["offset"] == fields["offset"])
    && ("timestamp" in e <==> "timestamp" in fields)
    && ("timestamp" in e ==> IsKeptMoment(c, counts, fields["timestamp"], e["timestamp"]))
  }

  lemma MomentsAre(c: Config, v: Json)
    ensures IsCanonicalTimestamp(c, v) <==> IsMoment(c, v)
  {
  }

  lemma KeptMomentIs(c: Config, counts: bool, v: Json, kept: Json)
    requires IsMoment(c, v)
    ensures IsCanonicalTimestamp(c, v) && (KeptTimestamp(c, counts, v) == kept <==> IsKeptMoment(c, counts, v, kept))
  {
    MomentsAre(c, v);
    var ms := c.parseDate(v.s).value;
    var hour := ms / 3_600_000 * 3_600_000;
    assert hour % 3_600_000 == 0 && hour <= ms < hour + 3_600_000;
    forall h: int | h % 3_600_000 == 0 && h <= ms < h + 3_600_000 ensures h == hour {
      HourUnique(ms, h);
    }
  }

  lemma HourUnique(ms: int, h: int)
    requires h % 3_600_000 == 0 && h <= ms < h + 3_600_000
    ensures h == ms / 3_600_000 * 3_600_000
  {
    assert h == h / 3_600_000 * 3_600_000;
  }

  lemma EnvelopeGoodIs(c: Config, fields: Fields, q: Fields, counts: bool)
    requires "event" in fields
    ensures RebuiltEnvelope(c, fields, q, counts).Some? <==> HasGoodEnvelope(c, fields)
  {
    if "uuid" in fields && fields["uuid"].Str? {
      UuidsHaveForm(fields["uuid"].s);
    }
    if "timestamp" in fields {
      MomentsAre(c, fields["timestamp"]);
    }
  }

  lemma EnvelopeIs(c: Config, fields: Fields, q: Fields, counts: bool, e: Fields)
    requires "event" in fields && RebuiltEnvelope(c, fields, q, counts) == Some(e)
    ensures HasGoodEnvelope(c, fields) && IsEnvelope(c, fields, q, counts, e)
  {
    EnvelopeGoodIs(c, fields, q, counts);
    EnvelopeKeys(c, fields, q, counts, e);
    if "timestamp" in fields {
      KeptMomentIs(c, counts, fields["timestamp"], e["timestamp"]);
      EnvelopeMoment(c, fields, q, counts, e);
    }
  }

  lemma EnvelopeMoment(c: Config, fields: Fields, q: Fields, counts: bool, e: Fields)
    requires "event" in fields && RebuiltEnvelope(c, fields, q, counts) == Some(e) && "timestamp" in fields
    ensures IsCanonicalTimestamp(c, fields["timestamp"])
    ensures "timestamp" in e && e["timestamp"] == KeptTimestamp(c, counts, fields["timestamp"])
  {
  }

  lemma EnvelopeUnique(c: Config, fields: Fields, q: Fields, counts: bool, a: Fields, b: Fields)
    requires "event" in fields && HasGoodEnvelope(c, fields)
    requires IsEnvelope(c, fields, q, counts, a) && IsEnvelope(c, fields, q, counts, b)
    ensures a == b
  {
    if "timestamp" in fields {
      KeptMomentIs(c, counts, fields["timestamp"], a["timestamp"]);
      KeptMomentIs(c, counts, fields["timestamp"], b["timestamp"]);
    }
    assert a.Keys == b.Keys;
    forall key | key in a ensures a[key] == b[key] {
    }
  }

  /** The event is one of the contract's, or one of the three lifecycle events. */
  ghost predicate IsKnown(c: Config, eventName: string)
  {
    eventName in c.contracts || eventName in {"$pageview", "$pageleave", "$web_vitals"}
  }

  /** The event goes on as e: it has an event's fields only, well formed, a known name, and properties that go on. */
  ghost predicate GoesOn(c: Config, value: Json, e: Fields)
  {
    && value.Obj? && value.fields.Keys <= {"event", "properties", "uuid", "timestamp", "offset"}
    && "event" in value.fields && "properties" in value.fields && HasGoodEnvelope(c, value.fields)
    && exists eventName, q ::
         && value.fields["event"] == Str(eventName) && IsKnown(c, eventName)
         && RebuiltProperties(c, eventName, value.fields["properties"]) == Some(q)
         && IsEnvelope(c, value.fields, q, CountsAttribution(eventName, q), e)
  }

  lemma KnownIs(c: Config, eventName: string)
    ensures eventName in c.contracts || LifecycleRequired(eventName).Some? <==> IsKnown(c, eventName)
  {
  }

  lemma EventsGoOnExactly(c: Config, value: Json, e: Fields)
    ensures RebuiltEvent(c, value) == Some(e) <==> GoesOn(c, value, e)
  {
    if RebuiltEvent(c, value) == Some(e) {
      var eventName, properties, q := RebuiltEventParts(c, value, e);
      KnownIs(c, eventName);
      CountersAre(eventName, q);
      EnvelopeIs(c, value.fields, q, IsCounter(eventName, q), e);
    }
    if GoesOn(c, value, e) {
      var eventName, q :| && value.fields["event"] == Str(eventName) && IsKnown(c, eventName)
                          && RebuiltProperties(c, eventName, value.fields["properties"]) == Some(q)
                          && IsEnvelope(c, value.fields, q, CountsAttribution(eventName, q), e);
      GoingOnIsRebuilt(c, value, eventName, q, e);
    }
  }

  lemma GoingOnIsRebuilt(c: Config, value: Json, eventName: string, q: Fields, e: Fields)
    requires value.Obj? && value.fields.Keys <= {"event", "properties", "uuid", "timestamp", "offset"}
    requires "event" in value.fields && "properties" in value.fields && HasGoodEnvelope(c, value.fields)
    requires value.fields["event"] == Str(eventName) && IsKnown(c, eventName)
    requires RebuiltProperties(c, eventName, value.fields["properties"]) == Some(q)
    requires IsEnvelope(c, value.fields, q, CountsAttribution(eventName, q), e)
    ensures RebuiltEvent(c, value) == Some(e)
  {
    var counts := IsCounter(eventName, q);
    KnownIs(c, eventName);
    CountersAre(eventName, q);
    EnvelopeGoodIs(c, value.fields, q, counts);
    var made := RebuiltEnvelope(c, value.fields, q, counts).value;
    EnvelopeIs(c, value.fields, q, counts, made);
    EnvelopeUnique(c, value.fields, q, counts, made, e);
  }

  // ----- payloads -----

  /** The shape and the candidates of a payload: an array, a capture batch under its key, or one event. */
  ghost predicate Opens(c: Config, body: Json, shape: Shape, candidates: seq<Json>)
  {
    if body.Arr? then shape == Batch && candidates == body.items
    else if body.Obj? && "batch" in body.fields then
      && body.fields.Keys == {"api_key", "batch", "sent_at"} && body.fields["batch"] == Arr(candidates)
      && exists key, sentAt ::
           && body.fields["api_key"] == Str(key) && HasTokenForm(key)
           && (c.pinnedToken.Some? && c.pinnedToken.value != "" ==> key == c.pinnedToken.value)
           && body.fields["sent_at"] == Str(sentAt) && IsMoment(c, Str(sentAt))
           && shape == CaptureBatch(if c.pinnedToken.Some? then c.pinnedToken.value else key, sentAt)
    else shape == Single && candidates == [body]
  }

  lemma OpensExactly(c: Config, body: Json, shape: Shape, candidates: seq<Json>)
    ensures Opened(c, body) == Some((shape, candidates)) <==> Opens(c, body, shape, candidates)
  {
    if body.Obj? && "batch" in body.fields {
      var f := body.fields;
      if "api_key" in f && f["api_key"].Str? {
        TokensHaveForm(f["api_key"].s);
      }
      if "sent_at" in f {
        MomentsAre(c, f["sent_at"]);
      }
      assert f.Keys <= {"api_key", "batch", "sent_at"} && "api_key" in f && "sent_at" in f <==>
             f.Keys == {"api_key", "batch", "sent_at"};
    }
  }

  /** The candidate goes on as e; in a capture batch, only under that batch's key. */
  ghost predicate PassesAs(c: Config, shape: Shape, candidate: Json, e: Fields)
  {
    && GoesOn(c, candidate, e)
    && (shape.CaptureBatch? ==>
          exists q :: e["properties"] == Obj(q) && "token" in q && q["token"] == Str(shape.apiKey))
  }

  lemma SurvivorIs(c: Config, shape: Shape, candidate: Json, e: Fields)
    ensures Survivor(c, shape, candidate) == Some(e) <==> PassesAs(c, shape, candidate, e)
  {
    EventsGoOnExactly(c, candidate, e);
    if RebuiltEvent(c, candidate).Some? {
      EventsGoOnExactly(c, candidate, RebuiltEvent(c, candidate).value);
    }
  }

  type Passing = (Json, Fields) -> bool

  ghost function PassingOf(c: Config, shape: Shape): Passing
  {
    (candidate, e) => PassesAs(c, shape, candidate, e)
  }

  /** The picked candidates, in order, go on as these events, and no other candidate goes on. */
  ghost predicate ArePicked(passes: Passing, candidates: seq<Json>, picks: seq<nat>, events: seq<Fields>)
  {
    && |picks| == |events| && Increasing(picks)
    && (forall i :: 0 <= i < |picks| ==> picks[i] < |candidates| && passes(candidates[picks[i]], events[i]))
    && forall k, e :: 0 <= k < |candidates| && passes(candidates[k], e) ==> k in picks
  }

  /** The same of any sieve. */
  ghost predicate PickedBy(sieve: Sieve, candidates: seq<Json>, picks: seq<nat>, events: seq<Fields>)
  {
    && |picks| == |events| && Increasing(picks)
    && (forall i :: 0 <= i < |picks| ==> picks[i] < |candidates| && sieve(candidates[picks[i]]) == Some(events[i]))
    && forall k :: 0 <= k < |candidates| && sieve(candidates[k]).Some? ==> k in picks
  }

  /** One more candidate: picked if the sieve lets it through. */
  lemma PickedNext(sieve: Sieve, front: seq<Json>, last: Json, picks: seq<nat>, events: seq<Fields>)
    requires PickedBy(sieve, front, picks, events)
    ensures match sieve(last)
            case None => PickedBy(sieve, front + [last], picks, events)
            case Some(e) => PickedBy(sieve, front + [last], picks + [|front|], events + [e])
  {
    var all := front + [last];
    assert forall k :: 0 <= k < |front| ==> all[k] == front[k];
    assert all[|front|] == last;
    if sieve(last).Some? {
      var more := picks + [|front|];
      assert forall i :: 0 <= i < |picks| ==> more[i] == picks[i];
      forall k | 0 <= k < |all| && sieve(all[k]).Some? ensures k in more {
        if k < |front| {
          assert k in picks;
        }
      }
    }
  }

  lemma {:induction false} SurvivorsArePicked(sieve: Sieve, candidates: seq<Json>) returns (picks: seq<nat>)
    ensures PickedBy(sieve, candidates, picks, Survivors(sieve, candidates))
  {
    if candidates == [] {
      picks := [];
    } else {
      var n := |candidates| - 1;
      var front, last := candidates[..n], candidates[n];
      var before := SurvivorsArePicked(sieve, front);
      PickedNext(sieve, front, last, before, Survivors(sieve, front));
      assert candidates == front + [last];
      picks := before + if sieve(last).Some? then [n] else [];
    }
  }

  lemma PickedIs(sieve: Sieve, passes: Passing, candidates: seq<Json>, picks: seq<nat>, events: seq<Fields>)
    requires forall v, e :: sieve(v) == Some(e) <==> passes(v, e)
    ensures PickedBy(sieve, candidates, picks, events) <==> ArePicked(passes, candidates, picks, events)
  {
    forall k | 0 <= k < |candidates| && sieve(candidates[k]).Some?
      ensures passes(candidates[k], sieve(candidates[k]).value)
    {
    }
  }

  lemma SieveIsPassing(c: Config, shape: Shape)
    ensures forall v, e :: SieveOf(c, shape)(v) == Some(e) <==> PassingOf(c, shape)(v, e)
  {
    forall v, e ensures SieveOf(c, shape)(v) == Some(e) <==> PassingOf(c, shape)(v, e) {
      SurvivorIs(c, shape, v, e);
    }
  }

  ghost predicate Increasing(picks: seq<nat>)
  {
    forall i, j :: 0 <= i < j < |picks| ==> picks[i] < picks[j]
  }

  lemma {:induction false} IncreasingUnique(a: seq<nat>, b: seq<nat>)
    requires Increasing(a) && Increasing(b) && forall k :: k in a <==> k in b
    ensures a == b
  {
    assert a != [] ==> a[0] in a;
    assert b != [] ==> b[0] in b;
    if a != [] && b != [] {
      var x, y := a[|a| - 1], b[|b| - 1];
      assert x in a && y in b;
      var i :| 0 <= i < |b| && b[i] == x;
      var j :| 0 <= j < |a| && a[j] == y;
      assert x == y;
      var front, other := a[..|a| - 1], b[..|b| - 1];
      forall k ensures k in front <==> k in other {
        WithoutLast(a, k);
        WithoutLast(b, k);
      }
      IncreasingUnique(front, other);
    }
  }

  lemma WithoutLast(a: seq<nat>, k: nat)
    requires Increasing(a) && a != []
    ensures k in a[..|a| - 1] <==> k in a && k != a[|a| - 1]
  {
    if k in a && k != a[|a| - 1] {
      var i :| 0 <= i < |a| && a[i] == k;
      assert a[..|a| - 1][i] == k;
    }
  }

  lemma PicksUnique(sieve: Sieve, candidates: seq<Json>, a: seq<nat>, x: seq<Fields>, b: seq<nat>, y: seq<Fields>)
    requires PickedBy(sieve, candidates, a, x) && PickedBy(sieve, candidates, b, y)
    ensures x == y
  {
    forall k ensures k in a <==> k in b {
    }
    IncreasingUnique(a, b);
  }

  /** Exactly which payloads go on: one to a hundred candidates, of which those that pass go on in their order. */
  lemma PayloadsGoOnExactly(c: Config, body: Json, r: Rebuilt)
    ensures RebuiltPayload(c, Some(body)) == Some(r) <==>
              exists candidates, picks ::
                && Opens(c, body, r.shape, candidates) && 1 <= |candidates| <= 100
                && ArePicked(PassingOf(c, r.shape), candidates, picks, r.events)
  {
    var sieve, passes := SieveOf(c, r.shape), PassingOf(c, r.shape);
    SieveIsPassing(c, r.shape);
    if RebuiltPayload(c, Some(body)) == Some(r) {
      var candidates := PayloadParts(c, body, r);
      OpensExactly(c, body, r.shape, candidates);
      var picks := SurvivorsArePicked(sieve, candidates);
      PickedIs(sieve, passes, candidates, picks, r.events);
    }
    forall candidates, picks | Opens(c, body, r.shape, candidates) && 1 <= |candidates| <= 100 &&
                               ArePicked(passes, candidates, picks, r.events)
      ensures RebuiltPayload(c, Some(body)) == Some(r)
    {
      OpensExactly(c, body, r.shape, candidates);
      var all := SurvivorsArePicked(sieve, candidates);
      PickedIs(sieve, passes, candidates, picks, r.events);
      PicksUnique(sieve, candidates, picks, r.events, all, Survivors(sieve, candidates));
    }
  }
}
