/** Where a checkout came from, what telemetry says of it, and what ingest accepts. */
module CheckoutAttribution {
  import opened Wrappers
  import opened CheckoutIntents
  import opened PartnerRegistry

  datatype Attribution = Attribution(sourceDomain: Option<string>, sourceMethod: string, partnerCode: Option<string>)

  /** A checkout's claims: a source and a partner code, each optional. */
  datatype Input = Input(source: Option<Source>, partner: Option<string>)

  function MethodName(how: Method): string
  {
    match how
    case Claimed => "claimed"
    case Referrer => "referrer"
  }

  function Resolve(norm: Normalizer, registry: Registry, input: Input): Option<Attribution>
  {
    if input.source.Some? then
      var source := input.source.value;
      if norm(source.domain) != Some(source.domain) then None
      else
        var mapped := ResolveDomain(norm, Some(source.domain), registry);
        var code := if source.how == Referrer then Or(ResolveCode(input.partner, registry), mapped) else mapped;
        Some(Attribution(Some(source.domain), MethodName(source.how), code))
    else
      var code := ResolveCode(input.partner, registry);
      if code.Some? then Some(Attribution(None, "partner", code)) else None
  }

  /** `a ?? b` */
  function Or(a: Option<string>, b: Option<string>): Option<string>
  {
    if a.Some? then a else b
  }

  /** The three telemetry properties, each absent or a string. */
  datatype Properties = Properties(
    sourceMethod: Option<string>,
    sourceDomain: Option<string>,
    partnerCode: Option<string>)

  function PropertiesOf(norm: Normalizer, registry: Registry, attribution: Option<Attribution>): Properties
  {
    if attribution.None? then Properties(Some("none"), None, None)
    else
      var a := attribution.value;
      var mapped := if a.sourceDomain.Some? then ResolveDomain(norm, a.sourceDomain, registry) else None;
      var code := if a.sourceMethod == "claimed" then mapped else Or(ResolveCode(a.partnerCode, registry), mapped);
      var domain := if a.sourceDomain.None? then None else if mapped.Some? then a.sourceDomain else Some("other");
      Properties(Some(a.sourceMethod), domain, code)
  }

  /** The consistency check that the client and ingest both make. */
  predicate IsConsistent(norm: Normalizer, registry: Registry, p: Properties)
  {
    if p.sourceDomain.None? && p.sourceMethod.None? then true
    else if p.sourceMethod == Some("none") then p.sourceDomain.None? && p.partnerCode.None?
    else if p.sourceMethod == Some("partner") then
      p.sourceDomain.None? && p.partnerCode.Some? && ResolveCode(p.partnerCode, registry) == p.partnerCode
    else if p.sourceMethod != Some("claimed") && p.sourceMethod != Some("referrer") then false
    else if p.sourceDomain != Some("other") && (p.sourceDomain.None? || norm(p.sourceDomain.value) != p.sourceDomain)
    then false
    else
      var mapped := if p.sourceDomain == Some("other") then None else ResolveDomain(norm, p.sourceDomain, registry);
      if mapped.None? && p.sourceDomain != Some("other") then false
      else if p.sourceMethod == Some("claimed") then p.partnerCode == mapped
      else if p.partnerCode.None? then mapped.None?
      else ResolveCode(p.partnerCode, registry) == p.partnerCode
  }

  /** The per-label checks of the telemetry contract on the attribution labels. */
  predicate HasAllowedLabels(norm: Normalizer, registry: Registry, p: Properties)
  {
    && (p.sourceMethod.Some? ==> p.sourceMethod.value in {"claimed", "referrer", "partner", "none"})
    && (p.sourceDomain.Some? ==>
          || p.sourceDomain.value == "other"
          || (norm(p.sourceDomain.value) == p.sourceDomain && ResolveDomain(norm, p.sourceDomain, registry).Some?))
    && (p.partnerCode.Some? ==> ResolveCode(p.partnerCode, registry) == p.partnerCode)
  }

  /** "other", the label of unreviewed domains, is not itself a domain. */
  ghost predicate SoundNormalizer(norm: Normalizer)
  {
    norm("other") != Some("other") && norm("") != Some("")
  }

  /** What any resolved attribution, or none, is reported as passes both checks. */
  lemma AttributionPasses(norm: Normalizer, registry: Registry, input: Input)
    requires SoundNormalizer(norm)
    ensures var p := PropertiesOf(norm, registry, Resolve(norm, registry, input));
            p.sourceMethod.Some? && IsConsistent(norm, registry, p) && HasAllowedLabels(norm, registry, p)
  {
    var attribution := Resolve(norm, registry, input);
    if attribution.Some? {
      ResolvedIsActive(norm, attribution.value.sourceDomain, registry);
    }
  }

  /** Conversely, what passes both checks and names a method is the report of some checkout. */
  lemma PassingIsAttributed(norm: Normalizer, registry: Registry, p: Properties, unmapped: string)
    returns (input: Input)
    requires SoundNormalizer(norm) && p.sourceMethod.Some?
    requires norm(unmapped) == Some(unmapped) && ResolveDomain(norm, Some(unmapped), registry).None?
    requires IsConsistent(norm, registry, p) && HasAllowedLabels(norm, registry, p)
    ensures PropertiesOf(norm, registry, Resolve(norm, registry, input)) == p
  {
    if p.sourceMethod == Some("none") {
      input := Input(None, None);
    } else if p.sourceMethod == Some("partner") {
      input := Input(None, p.partnerCode);
    } else {
      var how := if p.sourceMethod == Some("claimed") then Claimed else Referrer;
      var domain := if p.sourceDomain == Some("other") then unmapped else p.sourceDomain.value;
      input := Input(Some(Source(domain, how)), p.partnerCode);
    }
  }

  /** The older contracts: no source at all, and an active partner code if any. */
  predicate IsSourceless(registry: Registry, p: Properties)
  {
    && p.sourceMethod.None? && p.sourceDomain.None?
    && (p.partnerCode.Some? ==> p.partnerCode.value in ActiveCodes(registry))
  }

  /**
    As long as some domain is not mapped to a partner, the two checks together accept exactly the
    properties that some checkout is reported as, and those of the older contracts without a source.
   */
  lemma ChecksAcceptExactlyTheReports(norm: Normalizer, registry: Registry, p: Properties, unmapped: string)
    requires SoundNormalizer(norm)
    requires norm(unmapped) == Some(unmapped) && ResolveDomain(norm, Some(unmapped), registry).None?
    ensures IsConsistent(norm, registry, p) && HasAllowedLabels(norm, registry, p) <==>
              || IsSourceless(registry, p)
              || exists input :: PropertiesOf(norm, registry, Resolve(norm, registry, input)) == p
  {
    if p.sourceMethod.Some? && IsConsistent(norm, registry, p) && HasAllowedLabels(norm, registry, p) {
      var input := PassingIsAttributed(norm, registry, p, unmapped);
    }
    if p.partnerCode.Some? {
      ActiveIffCarriedOnce(registry, p.partnerCode.value);
    }
    forall input | PropertiesOf(norm, registry, Resolve(norm, registry, input)) == p
      ensures IsConsistent(norm, registry, p) && HasAllowedLabels(norm, registry, p)
    {
      AttributionPasses(norm, registry, input);
    }
  }

  // ----- who is credited -----

  /** Exactly one live entry of a registry that is not too long carries the code. */
  ghost predicate IsActive(registry: Registry, code: Option<string>)
  {
    code.Some? && |registry| <= 64 && CarriedOnce(registry, code.value)
  }

  /** The domain is canonical, and one entry alone, which carries the code, lays claim to it. */
  ghost predicate Owns(norm: Normalizer, registry: Registry, domain: string, code: string)
  {
    && domain != "" && norm(domain) == Some(domain) && |registry| <= 64
    && exists i: nat :: ClaimsAlone(norm, registry, domain, i) && registry[i].code == code
  }

  /**
    Whom a checkout is credited to. A claimed source is credited to the owner of its domain, whatever
    code the link carries. A referring one is credited to the link's code if that is active, and to the
    owner of its domain otherwise. Without a source the link's code must be active.
   */
  ghost predicate IsCredited(norm: Normalizer, registry: Registry, input: Input, code: string)
  {
    match input.source
    case None => input.partner == Some(code) && IsActive(registry, input.partner)
    case Some(Source(domain, Claimed)) => Owns(norm, registry, domain, code)
    case Some(Source(domain, Referrer)) =>
      && norm(domain) == Some(domain)
      && (if IsActive(registry, input.partner) then input.partner == Some(code) else Owns(norm, registry, domain, code))
  }

  lemma ActiveResolves(registry: Registry, code: Option<string>)
    ensures ResolveCode(code, registry) == if IsActive(registry, code) then code else None
  {
    if code.Some? {
      ActiveIffCarriedOnce(registry, code.value);
    }
  }

  lemma OwnedResolves(norm: Normalizer, registry: Registry, domain: string, code: string)
    ensures ResolveDomain(norm, Some(domain), registry) == Some(code) <==> Owns(norm, registry, domain, code)
  {
    if domain != "" && norm(domain) == Some(domain) && |registry| <= 64 {
      DomainResolvesToItsClaim(norm, domain, registry, code);
    }
  }

  /** A checkout is attributed exactly when its source is canonical, or, without one, its link's code is active. */
  lemma AttributedExactly(norm: Normalizer, registry: Registry, input: Input)
    ensures Resolve(norm, registry, input).Some? <==>
              if input.source.Some? then norm(input.source.value.domain) == Some(input.source.value.domain)
              else IsActive(registry, input.partner)
  {
    ActiveResolves(registry, input.partner);
  }

  /** The attribution names the source as given, how it came about, and exactly whom it is credited to. */
  lemma AttributionSays(norm: Normalizer, registry: Registry, input: Input, code: string)
    requires Resolve(norm, registry, input).Some?
    ensures var a := Resolve(norm, registry, input).value;
            && (a.partnerCode == Some(code) <==> IsCredited(norm, registry, input, code))
            && a.sourceDomain == (if input.source.Some? then Some(input.source.value.domain) else None)
            && a.sourceMethod == (if input.source.None? then "partner"
                                  else if input.source.value.how == Claimed then "claimed" else "referrer")
  {
    ActiveResolves(registry, input.partner);
    if input.source.Some? {
      OwnedResolves(norm, registry, input.source.value.domain, code);
    }
  }

  /** A link's partner code cannot take over a claimed source. */
  lemma ClaimedSourcesIgnoreTheLink(norm: Normalizer, registry: Registry, domain: string,
                                    a: Option<string>, b: Option<string>)
    ensures Resolve(norm, registry, Input(Some(Source(domain, Claimed)), a)) ==
            Resolve(norm, registry, Input(Some(Source(domain, Claimed)), b))
  {
    assert Source(domain, Claimed).how != Referrer;
  }

  /**
    Telemetry reports the method and whom the checkout is credited to, and names the domain only if
    somebody owns it; a checkout without attribution is reported as "none".
   */
  lemma ReportSays(norm: Normalizer, registry: Registry, input: Input, code: string)
    ensures var attribution := Resolve(norm, registry, input);
            var p := PropertiesOf(norm, registry, attribution);
            if attribution.None? then p == Properties(Some("none"), None, None)
            else
              && p.sourceMethod == Some(attribution.value.sourceMethod)
              && (p.partnerCode == Some(code) <==> IsCredited(norm, registry, input, code))
              && (input.source.None? ==> p.sourceDomain == None)
              && (input.source.Some? && Owns(norm, registry, input.source.value.domain, code) ==>
                    p.sourceDomain == Some(input.source.value.domain))
              && (input.source.Some? && (forall owner :: !Owns(norm, registry, input.source.value.domain, owner)) ==>
                    p.sourceDomain == Some("other"))
  {
    var attribution := Resolve(norm, registry, input);
    if attribution.Some? {
      AttributionSays(norm, registry, input, code);
      ActiveResolves(registry, input.partner);
      ResolvedIsActive(norm, attribution.value.sourceDomain, registry);
      if input.source.Some? {
        var mapped := ResolveDomain(norm, attribution.value.sourceDomain, registry);
        OwnedResolves(norm, registry, input.source.value.domain, code);
        if mapped.Some? {
          OwnedResolves(norm, registry, input.source.value.domain, mapped.value);
        }
      }
    }
  }

  /**
    Whatever attribution it is given, a report credits a claimed source to the owner of its domain alone,
    and any other to the attribution's code if that is active and to the domain's owner otherwise.
   */
  lemma ReportCredits(norm: Normalizer, registry: Registry, a: Attribution, code: string)
    ensures var owned := a.sourceDomain.Some? && Owns(norm, registry, a.sourceDomain.value, code);
            PropertiesOf(norm, registry, Some(a)).partnerCode == Some(code) <==>
              if a.sourceMethod != "claimed" && IsActive(registry, a.partnerCode) then a.partnerCode == Some(code)
              else owned
  {
    ActiveResolves(registry, a.partnerCode);
    if a.sourceDomain.Some? {
      OwnedResolves(norm, registry, a.sourceDomain.value, code);
    }
  }

  /** Somebody owns the domain. */
  ghost predicate IsOwned(norm: Normalizer, registry: Registry, domain: string)
  {
    exists owner :: Owns(norm, registry, domain, owner)
  }

  /**
    Properties that agree with one another: no source at all; "none" with nothing else; "partner" with an
    active code alone; a claimed source with its owner's code, or "other" with none; a referring source
    that is owned, or "other", with an active code, which only "other" may lack.
   */
  ghost predicate Agree(norm: Normalizer, registry: Registry, p: Properties)
  {
    match p.sourceMethod
    case None => p.sourceDomain.None?
    case Some(how) =>
      if how == "none" then p.sourceDomain.None? && p.partnerCode.None?
      else if how == "partner" then p.sourceDomain.None? && IsActive(registry, p.partnerCode)
      else if how == "claimed" then
        && p.sourceDomain.Some?
        && if p.sourceDomain.value == "other" then p.partnerCode.None?
           else p.partnerCode.Some? && Owns(norm, registry, p.sourceDomain.value, p.partnerCode.value)
      else
        && how == "referrer" && p.sourceDomain.Some?
        && (p.sourceDomain.value == "other" || IsOwned(norm, registry, p.sourceDomain.value))
        && if p.partnerCode.None? then p.sourceDomain.value == "other" else IsActive(registry, p.partnerCode)
  }

  lemma OwnedIs(norm: Normalizer, registry: Registry, domain: string)
    ensures ResolveDomain(norm, Some(domain), registry).Some? <==> IsOwned(norm, registry, domain)
  {
    forall owner
      ensures ResolveDomain(norm, Some(domain), registry) == Some(owner) <==> Owns(norm, registry, domain, owner)
    {
      OwnedResolves(norm, registry, domain, owner);
    }
    if ResolveDomain(norm, Some(domain), registry).Some? {
      assert Owns(norm, registry, domain, ResolveDomain(norm, Some(domain), registry).value);
    }
  }

  /** The consistency check passes exactly the properties that agree. */
  lemma ConsistentExactly(norm: Normalizer, registry: Registry, p: Properties)
    ensures IsConsistent(norm, registry, p) <==> Agree(norm, registry, p)
  {
    ActiveResolves(registry, p.partnerCode);
    if p.sourceDomain.Some? {
      OwnedIs(norm, registry, p.sourceDomain.value);
      if p.partnerCode.Some? {
        OwnedResolves(norm, registry, p.sourceDomain.value, p.partnerCode.value);
      }
    }
  }

  /** The label checks pass exactly known methods, owned domains or "other", and active codes. */
  lemma LabelsExactly(norm: Normalizer, registry: Registry, p: Properties)
    ensures HasAllowedLabels(norm, registry, p) <==>
              && (p.sourceMethod.Some? ==> p.sourceMethod.value in ["claimed", "referrer", "partner", "none"])
              && (p.sourceDomain.Some? ==>
                    p.sourceDomain.value == "other" || IsOwned(norm, registry, p.sourceDomain.value))
              && (p.partnerCode.Some? ==> IsActive(registry, p.partnerCode))
  {
    ActiveResolves(registry, p.partnerCode);
    if p.sourceDomain.Some? {
      OwnedIs(norm, registry, p.sourceDomain.value);
    }
  }

  /** What is reported does not depend on the order of the registry. */
  lemma ReportsIgnoreOrder(norm: Normalizer, a: Registry, b: Registry, input: Input)
    requires multiset(a) == multiset(b)
    ensures PropertiesOf(norm, a, Resolve(norm, a, input)) == PropertiesOf(norm, b, Resolve(norm, b, input))
  {
    var domain := if input.source.Some? then Some(input.source.value.domain) else None;
    ResolversIgnoreOrder(norm, a, b, input.partner, domain);
    var attribution := Resolve(norm, a, input);
    if attribution.Some? {
      ResolversIgnoreOrder(norm, a, b, attribution.value.partnerCode, attribution.value.sourceDomain);
    }
  }
}
