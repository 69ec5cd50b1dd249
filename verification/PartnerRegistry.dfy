/** The reviewed partner registry: which codes are active, and what a code or a domain resolves to. */
module PartnerRegistry {
  import opened Wrappers
  import opened CheckoutIntents

  datatype Registration = Registration(code: string, account: string, active: bool, domains: Option<seq<string>>)

  type Registry = seq<Registration>

  type Normalizer = string -> Option<string>

  const MAX_REGISTRATIONS := 64
  const MAX_DOMAINS := 8

  predicate IsLive(entry: Registration)
  {
    entry.active && entry.account != "" && IsPartnerCode(entry.code)
  }

  function CountWhere(registry: Registry, p: Registration -> bool): nat
  {
    if registry == [] then 0
    else CountWhere(registry[..|registry| - 1], p) + if p(registry[|registry| - 1]) then 1 else 0
  }

  function Carries(code: string): Registration -> bool
  {
    (entry: Registration) => IsLive(entry) && entry.code == code
  }

  /** The codes carried by exactly one live entry of a registry that is not too long. */
  function ActiveCodes(registry: Registry): set<string>
  {
    if |registry| > MAX_REGISTRATIONS then {}
    else set entry | entry in registry && CountWhere(registry, Carries(entry.code)) == 1 :: entry.code
  }

  method ActiveCheckoutPartnerCodes(registry: Registry) returns (codes: set<string>)
    ensures codes == ActiveCodes(registry)
  {
    if |registry| > MAX_REGISTRATIONS {
      return {};
    }
    var counts: map<string, nat> := map[];
    for i := 0 to |registry|
      invariant forall code :: (if code in counts then counts[code] else 0) ==
                               CountWhere(registry[..i], Carries(code))
      invariant forall code :: code in counts ==> exists k :: 0 <= k < i && registry[k].code == code
    {
      var entry := registry[i];
      assert registry[..i + 1][..i] == registry[..i];
      if IsLive(entry) {
        counts := counts[entry.code := (if entry.code in counts then counts[entry.code] else 0) + 1];
      }
    }
    assert registry[..|registry|] == registry;
    codes := set code | code in counts && counts[code] == 1;
  }

  // ----- what is active -----

  ghost predicate OnlyAt(registry: Registry, p: Registration -> bool, i: nat)
  {
    i < |registry| && p(registry[i]) && forall j :: 0 <= j < |registry| && p(registry[j]) ==> j == i
  }

  ghost predicate ExactlyOne(registry: Registry, p: Registration -> bool)
  {
    exists i: nat :: OnlyAt(registry, p, i)
  }

  lemma {:induction false} CountZero(registry: Registry, p: Registration -> bool)
    ensures CountWhere(registry, p) == 0 <==> forall i :: 0 <= i < |registry| ==> !p(registry[i])
  {
    if registry != [] {
      CountZero(registry[..|registry| - 1], p);
    }
  }

  lemma OnlyAtFront(registry: Registry, p: Registration -> bool, i: nat)
    requires registry != [] && !p(registry[|registry| - 1])
    ensures OnlyAt(registry, p, i) <==> OnlyAt(registry[..|registry| - 1], p, i)
  {
    var front := registry[..|registry| - 1];
    if OnlyAt(registry, p, i) {
      assert forall j :: 0 <= j < |front| ==> front[j] == registry[j];
    }
  }

  lemma OnlyAtLast(registry: Registry, p: Registration -> bool)
    requires registry != [] && p(registry[|registry| - 1])
    ensures ExactlyOne(registry, p) <==> CountWhere(registry[..|registry| - 1], p) == 0
  {
    var n := |registry| - 1;
    CountZero(registry[..n], p);
    if CountWhere(registry[..n], p) == 0 {
      assert forall j :: 0 <= j < n ==> registry[j] == registry[..n][j];
      assert OnlyAt(registry, p, n);
    } else {
      var k :| 0 <= k < n && p(registry[..n][k]);
      assert p(registry[k]);
    }
  }

  lemma {:induction false} CountOne(registry: Registry, p: Registration -> bool)
    ensures CountWhere(registry, p) == 1 <==> ExactlyOne(registry, p)
  {
    if registry != [] {
      var n := |registry| - 1;
      if p(registry[n]) {
        OnlyAtLast(registry, p);
      } else {
        CountOne(registry[..n], p);
        forall i: nat ensures OnlyAt(registry, p, i) <==> OnlyAt(registry[..n], p, i) {
          OnlyAtFront(registry, p, i);
        }
      }
    }
  }

  /** An entry in force: active, with an account, under a code of the right form. */
  ghost predicate InForce(entry: Registration)
  {
    entry.active && entry.account != "" && HasCodeForm(entry.code)
  }

  /** One entry in force, and no other, carries the code. */
  ghost predicate CarriedOnce(registry: Registry, code: string)
  {
    exists i: nat :: CarriedAt(registry, code, i)
  }

  ghost predicate CarriedAt(registry: Registry, code: string, i: nat)
  {
    && i < |registry| && InForce(registry[i]) && registry[i].code == code
    && forall j :: 0 <= j < |registry| && InForce(registry[j]) && registry[j].code == code ==> j == i
  }

  lemma LiveIsInForce()
    ensures forall entry :: IsLive(entry) <==> InForce(entry)
  {
    forall entry ensures IsLive(entry) <==> InForce(entry) {
      CodesHaveForm(entry.code);
    }
  }

  lemma CarriedOnceIsOne(registry: Registry, code: string)
    ensures CarriedOnce(registry, code) <==> ExactlyOne(registry, Carries(code))
  {
    LiveIsInForce();
    forall i: nat ensures CarriedAt(registry, code, i) <==> OnlyAt(registry, Carries(code), i) {
    }
  }

  /** A code is active exactly when one entry in force, and only one, carries it, in a registry of at most 64. */
  lemma ActiveIffCarriedOnce(registry: Registry, code: string)
    ensures code in ActiveCodes(registry) <==> |registry| <= 64 && CarriedOnce(registry, code)
    ensures code in ActiveCodes(registry) ==> IsPartnerCode(code)
  {
    CountOne(registry, Carries(code));
    CarriedOnceIsOne(registry, code);
    if ExactlyOne(registry, Carries(code)) {
      var i :| 0 <= i < |registry| && Carries(code)(registry[i]);
      assert registry[i] in registry && registry[i].code == code;
    }
  }

  // ----- the resolvers -----

  function ResolveCode(claim: Option<string>, registry: Registry): Option<string>
  {
    if claim.None? || !IsPartnerCode(claim.value) then None
    else if claim.value in ActiveCodes(registry) then claim else None
  }

  /** The entry lists the domain among at most eight canonical ones. */
  predicate Lists(norm: Normalizer, entry: Registration, domain: string)
  {
    && entry.domains.Some? && |entry.domains.value| <= MAX_DOMAINS
    && (forall k :: 0 <= k < |entry.domains.value| ==>
          norm(entry.domains.value[k]) == Some(entry.domains.value[k]))
    && domain in entry.domains.value
  }

  function HasDomain(norm: Normalizer, codes: set<string>, domain: string): Registration -> bool
  {
    (entry: Registration) => entry.code in codes && Lists(norm, entry, domain)
  }

  function Filter(registry: Registry, p: Registration -> bool): (matches: Registry)
    ensures |matches| == CountWhere(registry, p)
    ensures forall m :: m in matches <==> m in registry && p(m)
  {
    if registry == [] then []
    else
      var n := |registry| - 1;
      var front := Filter(registry[..n], p);
      assert forall m :: m in registry <==> m in registry[..n] || m == registry[n];
      if p(registry[n]) then front + [registry[n]] else front
  }

  function ResolveDomain(norm: Normalizer, domain: Option<string>, registry: Registry): Option<string>
  {
    if domain.None? || domain.value == "" || norm(domain.value) != domain || |registry| > MAX_REGISTRATIONS then None
    else
      var matches := Filter(registry, HasDomain(norm, ActiveCodes(registry), domain.value));
      if |matches| == 1 then Some(matches[0].code) else None
  }

  /** The entry names the domain, among at most eight that are all canonical. */
  ghost predicate Names(norm: Normalizer, entry: Registration, domain: string)
  {
    && entry.domains.Some? && domain in entry.domains.value && |entry.domains.value| <= 8
    && forall d :: d in entry.domains.value ==> norm(d) == Some(d)
  }

  lemma NamesIsLists(norm: Normalizer, entry: Registration, domain: string)
    ensures Names(norm, entry, domain) <==> Lists(norm, entry, domain)
  {
  }

  /**
    Entry i lays claim to the domain: it names it among at most eight canonical domains, and its code
    is carried by exactly one entry in force, which need not be entry i itself.
   */
  ghost predicate Claims(norm: Normalizer, registry: Registry, domain: string, i: nat)
  {
    i < |registry| && Names(norm, registry[i], domain) && CarriedOnce(registry, registry[i].code)
  }

  ghost predicate ClaimsAlone(norm: Normalizer, registry: Registry, domain: string, i: nat)
  {
    Claims(norm, registry, domain, i) && forall j: nat :: Claims(norm, registry, domain, j) ==> j == i
  }

  lemma ClaimsIsHasDomain(norm: Normalizer, registry: Registry, domain: string, i: nat)
    requires |registry| <= 64 && i < |registry|
    ensures Claims(norm, registry, domain, i) <==> HasDomain(norm, ActiveCodes(registry), domain)(registry[i])
  {
    ActiveIffCarriedOnce(registry, registry[i].code);
    NamesIsLists(norm, registry[i], domain);
  }

  lemma ClaimsAloneIsOnlyAt(norm: Normalizer, registry: Registry, domain: string, i: nat)
    requires |registry| <= 64
    ensures ClaimsAlone(norm, registry, domain, i) <==>
              OnlyAt(registry, HasDomain(norm, ActiveCodes(registry), domain), i)
  {
    forall j: nat | j < |registry|
      ensures Claims(norm, registry, domain, j) <==> HasDomain(norm, ActiveCodes(registry), domain)(registry[j])
    {
      ClaimsIsHasDomain(norm, registry, domain, j);
    }
  }

  /** A domain resolves to the code of the one entry that lays claim to it, and to nothing otherwise. */
  lemma DomainResolvesToItsClaim(norm: Normalizer, domain: string, registry: Registry, code: string)
    requires domain != "" && norm(domain) == Some(domain) && |registry| <= 64
    ensures ResolveDomain(norm, Some(domain), registry) == Some(code) <==>
              exists i: nat :: ClaimsAlone(norm, registry, domain, i) && registry[i].code == code
  {
    var p := HasDomain(norm, ActiveCodes(registry), domain);
    var matches := Filter(registry, p);
    CountOne(registry, p);
    forall i: nat ensures ClaimsAlone(norm, registry, domain, i) <==> OnlyAt(registry, p, i) {
      ClaimsAloneIsOnlyAt(norm, registry, domain, i);
    }
    if |matches| == 1 {
      var i: nat :| OnlyAt(registry, p, i);
      assert registry[i] in matches && matches[0] in matches;
      assert matches == [registry[i]];
    }
  }

  // ----- when every resolution goes through a live entry -----

  ghost predicate ListedByLiveEntry(norm: Normalizer, registry: Registry, domain: string, code: string)
  {
    exists entry :: entry in registry && InForce(entry) && entry.code == code && Names(norm, entry, domain)
  }

  /** Whatever a domain resolves to, some live entry carries that code and lists that domain. */
  ghost predicate ResolvesThroughLiveEntries(norm: Normalizer, registry: Registry)
  {
    forall domain, code :: ResolveDomain(norm, Some(domain), registry) == Some(code) ==>
      ListedByLiveEntry(norm, registry, domain, code)
  }

  /**
    Entry i is a stowaway: not live itself, it borrows a code that one live entry carries, and some
    canonical domain it lists is claimed by no other entry.
   */
  ghost predicate IsStowaway(norm: Normalizer, registry: Registry, i: nat)
  {
    && i < |registry| && !InForce(registry[i]) && registry[i].domains.Some?
    && exists k :: 0 <= k < |registry[i].domains.value| && registry[i].domains.value[k] != "" &&
                   ClaimsAlone(norm, registry, registry[i].domains.value[k], i)
  }

  /** A live entry that lists a domain under the code it resolves to is the entry that claims it. */
  lemma LiveEntryClaims(norm: Normalizer, registry: Registry, domain: string, i: nat)
    requires ClaimsAlone(norm, registry, domain, i)
    ensures ListedByLiveEntry(norm, registry, domain, registry[i].code) <==> InForce(registry[i])
  {
    if ListedByLiveEntry(norm, registry, domain, registry[i].code) {
      var j: nat :| j < |registry| && InForce(registry[j]) && registry[j].code == registry[i].code &&
                    Names(norm, registry[j], domain);
      assert Claims(norm, registry, domain, j);
    }
  }

  /** Resolution goes through live entries only, exactly when the registry is too long or has no stowaway. */
  lemma LiveResolutionIff(norm: Normalizer, registry: Registry)
    ensures ResolvesThroughLiveEntries(norm, registry) <==>
              |registry| > 64 || forall i: nat :: i < |registry| ==> !IsStowaway(norm, registry, i)
  {
    if |registry| <= 64 {
      forall i: nat | IsStowaway(norm, registry, i) ensures !ResolvesThroughLiveEntries(norm, registry) {
        StowawayResolves(norm, registry, i);
      }
      forall domain, code | ResolveDomain(norm, Some(domain), registry) == Some(code)
        ensures ListedByLiveEntry(norm, registry, domain, code) || exists i: nat :: IsStowaway(norm, registry, i)
      {
        ResolvedIsLiveOrStowaway(norm, registry, domain, code);
      }
    }
  }

  lemma StowawayResolves(norm: Normalizer, registry: Registry, i: nat)
    requires |registry| <= 64 && IsStowaway(norm, registry, i)
    ensures !ResolvesThroughLiveEntries(norm, registry)
  {
    var k :| 0 <= k < |registry[i].domains.value| && registry[i].domains.value[k] != "" &&
             ClaimsAlone(norm, registry, registry[i].domains.value[k], i);
    var domain := registry[i].domains.value[k];
    DomainResolvesToItsClaim(norm, domain, registry, registry[i].code);
    LiveEntryClaims(norm, registry, domain, i);
  }

  lemma ResolvedIsLiveOrStowaway(norm: Normalizer, registry: Registry, domain: string, code: string)
    requires |registry| <= 64 && ResolveDomain(norm, Some(domain), registry) == Some(code)
    ensures ListedByLiveEntry(norm, registry, domain, code) || exists i: nat :: IsStowaway(norm, registry, i)
  {
    DomainResolvesToItsClaim(norm, domain, registry, code);
    var i: nat :| ClaimsAlone(norm, registry, domain, i) && registry[i].code == code;
    LiveEntryClaims(norm, registry, domain, i);
    if !InForce(registry[i]) {
      var k :| 0 <= k < |registry[i].domains.value| && registry[i].domains.value[k] == domain;
      assert IsStowaway(norm, registry, i);
    }
  }

  /** Entry i lists domains without being live, under a code that a live entry carries. */
  ghost predicate BorrowsCode(registry: Registry, i: nat)
  {
    && i < |registry| && !InForce(registry[i]) && registry[i].domains.Some?
    && exists j :: 0 <= j < |registry| && InForce(registry[j]) && registry[j].code == registry[i].code
  }

  lemma StowawaysBorrow(norm: Normalizer, registry: Registry, i: nat)
    requires IsStowaway(norm, registry, i)
    ensures BorrowsCode(registry, i)
  {
    var j: nat :| CarriedAt(registry, registry[i].code, j);
    assert InForce(registry[j]) && registry[j].code == registry[i].code;
  }

  /** So a registry in which no entry borrows a code resolves through live entries only. */
  lemma WithoutBorrowingResolutionIsLive(norm: Normalizer, registry: Registry)
    requires forall i: nat :: !BorrowsCode(registry, i)
    ensures ResolvesThroughLiveEntries(norm, registry)
  {
    forall i: nat | i < |registry| && IsStowaway(norm, registry, i) ensures BorrowsCode(registry, i) {
      StowawaysBorrow(norm, registry, i);
    }
    LiveResolutionIff(norm, registry);
  }

  const SHARED_CODE: Registry := [
    Registration("abc", "acct", true, None),
    Registration("abc", "", false, Some(["shop.com"]))]

  /** A domain can resolve through an inactive entry without an account, by another entry's code. */
  lemma InactiveEntryResolvesADomain(norm: Normalizer)
    requires norm("shop.com") == Some("shop.com")
    ensures ResolveDomain(norm, Some("shop.com"), SHARED_CODE) == Some("abc")
    ensures ClaimsAlone(norm, SHARED_CODE, "shop.com", 1) && !InForce(SHARED_CODE[1])
    ensures !ResolvesThroughLiveEntries(norm, SHARED_CODE)
  {
    assert CarriedAt(SHARED_CODE, "abc", 0);
    assert ClaimsAlone(norm, SHARED_CODE, "shop.com", 1);
    DomainResolvesToItsClaim(norm, "shop.com", SHARED_CODE, "abc");
    LiveEntryClaims(norm, SHARED_CODE, "shop.com", 1);
  }

  lemma ResolvedIsActive(norm: Normalizer, domain: Option<string>, registry: Registry)
    ensures ResolveDomain(norm, domain, registry).Some? ==>
              ResolveCode(ResolveDomain(norm, domain, registry), registry) == ResolveDomain(norm, domain, registry)
  {
    if ResolveDomain(norm, domain, registry).Some? {
      var code := ResolveDomain(norm, domain, registry).value;
      var matches := Filter(registry, HasDomain(norm, ActiveCodes(registry), domain.value));
      assert matches[0] in matches;
      ActiveIffCarriedOnce(registry, code);
    }
  }

  // ----- the order of the registry does not matter -----

  lemma {:induction false} CountRemoves(registry: Registry, p: Registration -> bool, i: nat)
    requires i < |registry|
    ensures CountWhere(registry, p) ==
            CountWhere(registry[..i] + registry[i + 1..], p) + if p(registry[i]) then 1 else 0
  {
    var n := |registry| - 1;
    if i == n {
      assert registry[..i] + registry[i + 1..] == registry[..n];
    } else {
      CountRemoves(registry[..n], p, i);
      var rest := registry[..i] + registry[i + 1..];
      assert rest[..|rest| - 1] == registry[..n][..i] + registry[..n][i + 1..];
      assert rest[|rest| - 1] == registry[n];
    }
  }

  lemma {:induction false} CountIgnoresOrder(a: Registry, b: Registry, p: Registration -> bool)
    requires multiset(a) == multiset(b)
    ensures CountWhere(a, p) == CountWhere(b, p)
  {
    if a == [] {
      assert |b| == |multiset(b)| == |multiset(a)| == 0;
    } else {
      var last, front := a[|a| - 1], a[..|a| - 1];
      assert last in multiset(b);
      var i :| 0 <= i < |b| && b[i] == last;
      var rest := b[..i] + b[i + 1..];
      assert b == b[..i] + [b[i]] + b[i + 1..];
      assert a == front + [last];
      assert multiset(front) == multiset(a) - multiset{last} == multiset(rest);
      CountIgnoresOrder(front, rest, p);
      CountRemoves(b, p, i);
    }
  }

  lemma SameMembers(a: Registry, b: Registry)
    requires multiset(a) == multiset(b)
    ensures |a| == |b| && forall entry :: entry in a <==> entry in b
  {
    assert |a| == |multiset(a)| && |b| == |multiset(b)|;
    forall entry ensures entry in a <==> entry in b {
      assert entry in a <==> entry in multiset(a);
      assert entry in b <==> entry in multiset(b);
    }
  }

  lemma ActiveCodesIgnoreOrder(a: Registry, b: Registry)
    requires multiset(a) == multiset(b)
    ensures ActiveCodes(a) == ActiveCodes(b)
  {
    SameMembers(a, b);
    forall code ensures CountWhere(a, Carries(code)) == CountWhere(b, Carries(code)) {
      CountIgnoresOrder(a, b, Carries(code));
    }
  }

  /** Both resolvers give one answer for any reordering of the registry. */
  lemma ResolversIgnoreOrder(norm: Normalizer, a: Registry, b: Registry, claim: Option<string>, domain: Option<string>)
    requires multiset(a) == multiset(b)
    ensures ResolveCode(claim, a) == ResolveCode(claim, b)
    ensures ResolveDomain(norm, domain, a) == ResolveDomain(norm, domain, b)
  {
    ActiveCodesIgnoreOrder(a, b);
    SameMembers(a, b);
    if domain.Some? {
      var p := HasDomain(norm, ActiveCodes(a), domain.value);
      CountIgnoresOrder(a, b, p);
      var ours, theirs := Filter(a, p), Filter(b, p);
      if |ours| == 1 {
        assert ours[0] in theirs;
        assert theirs == [theirs[0]];
      }
    }
  }
}
