/** The reviewed registry of approved Lightning address names, and its validation. */
module AddressRegistry {
  import opened Wrappers
  import opened Text
  import opened Sequences

  datatype ApprovedName = ApprovedName(
    name: string,
    ownerPubkey: string,
    sparkIdentity: string,
    registration: bool,
    replacing: Option<string>,
    deleteUntil: Option<int>,
    transferFrom: Option<string>,
    transferUntil: Option<int>)

  /** Whether a string is a valid wallet identity is a curve computation; it stays a parameter. */
  type IdentityCheck = string -> bool

  const MAX_SAFE_INTEGER := 9_007_199_254_740_991

  predicate IsSafePositive(n: int)
  {
    0 < n <= MAX_SAFE_INTEGER
  }

  predicate IsNameChar(c: char)
  {
    'a' <= c <= 'z' || '0' <= c <= '9' || c == '_' || c == '-'
  }

  predicate IsLabel(s: string)
  {
    s != "" && forall i :: 0 <= i < |s| ==> IsNameChar(s[i])
  }

  /** One or more non-empty labels separated by dots, at most 64 characters in all. */
  predicate ValidName(s: string)
  {
    |s| <= 64 && forall i :: 0 <= i < |Split(s, '.')| ==> IsLabel(Split(s, '.')[i])
  }

  predicate IsHexKey(s: string)
  {
    |s| == 64 && forall i :: 0 <= i < |s| ==> 'a' <= s[i] <= 'f' || '0' <= s[i] <= '9'
  }

  predicate SoundEntry(isIdentity: IdentityCheck, n: ApprovedName)
  {
    && ValidName(n.name) && isIdentity(n.sparkIdentity) && IsHexKey(n.ownerPubkey)
    && (n.replacing.Some? ==> ValidName(n.replacing.value))
    && (n.transferFrom.Some? ==> isIdentity(n.transferFrom.value))
    && (n.deleteUntil.Some? ==> IsSafePositive(n.deleteUntil.value))
    && (n.transferUntil.Some? ==> IsSafePositive(n.transferUntil.value))
    && n.transferFrom.Some? == n.transferUntil.Some?
  }

  // ----- the policy in its own terms -----

  /** A name in dotted form: at most 64 characters, letters, digits, `_` and `-` with single dots between them. */
  ghost predicate IsDotted(s: string)
  {
    && 1 <= |s| <= 64 && s[0] != '.'
    && (forall c :: c in s ==> 'a' <= c <= 'z' || '0' <= c <= '9' || c in "_-.")
    && (forall i :: 0 <= i < |s| && s[i] == '.' ==> i + 1 < |s| && s[i + 1] != '.')
  }

  ghost predicate IsKey(s: string)
  {
    |s| == 64 && forall c :: c in s ==> c in "0123456789abcdef"
  }

  ghost predicate IsDeadline(until: Option<int>)
  {
    until.Some? ==> 0 < until.value < 0x20_0000_0000_0000
  }

  /** An entry as the policy wants it; a transfer names its wallet and its deadline together or not at all. */
  ghost predicate MeetsPolicy(isIdentity: IdentityCheck, n: ApprovedName)
  {
    && IsDotted(n.name) && isIdentity(n.sparkIdentity) && IsKey(n.ownerPubkey)
    && (n.replacing.Some? ==> IsDotted(n.replacing.value))
    && (n.transferFrom.Some? ==> isIdentity(n.transferFrom.value))
    && (n.transferFrom.Some? <==> n.transferUntil.Some?)
    && IsDeadline(n.deleteUntil) && IsDeadline(n.transferUntil)
  }

  /** Character i may stand where it does in a label already begun: a single dot, not the last, or a name character. */
  ghost predicate GoesOn(s: string, i: nat)
    requires i < |s|
  {
    if s[i] == '.' then i + 1 < |s| && s[i + 1] != '.' else IsNameChar(s[i])
  }

  ghost predicate Continues(s: string)
  {
    forall i :: 0 <= i < |s| ==> GoesOn(s, i)
  }

  ghost predicate LabelsAfter(parts: seq<string>)
    requires parts != []
  {
    (forall c :: c in parts[0] ==> IsNameChar(c)) && forall i :: 1 <= i < |parts| ==> IsLabel(parts[i])
  }

  lemma {:induction false} SplitContinues(s: string)
    ensures LabelsAfter(Split(s, '.')) <==> Continues(s)
  {
    if s != [] {
      var rest, parts := Split(s[1..], '.'), Split(s, '.');
      SplitContinues(s[1..]);
      ContinuesCons(s);
      SplitHead(s[1..]);
      if s[0] == '.' {
        assert parts == [""] + rest;
        assert LabelsAfter(parts) <==> LabelsAfter(rest) && rest[0] != "" by {
          assert forall i :: 1 <= i < |parts| ==> parts[i] == rest[i - 1];
          forall i | 0 <= i < |rest| ensures rest[i] == parts[i + 1] {
          }
          LabelIsChars(rest[0]);
        }
      } else {
        assert parts[0] == [s[0]] + rest[0] && parts[1..] == rest[1..];
        assert forall i :: 1 <= i < |parts| ==> parts[i] == rest[i];
        assert forall c :: c in parts[0] <==> c == s[0] || c in rest[0];
      }
    }
  }

  lemma LabelIsChars(s: string)
    ensures IsLabel(s) <==> s != "" && forall c :: c in s ==> IsNameChar(c)
  {
    if forall c :: c in s ==> IsNameChar(c) {
      forall i | 0 <= i < |s| ensures IsNameChar(s[i]) {
        assert s[i] in s;
      }
    }
  }

  lemma SplitHead(s: string)
    ensures Split(s, '.')[0] == "" <==> s == "" || s[0] == '.'
  {
  }

  lemma ContinuesCons(s: string)
    requires s != []
    ensures Continues(s) <==> Continues(s[1..]) && GoesOn(s, 0)
  {
    var tail := s[1..];
    forall i | 0 <= i < |tail| ensures GoesOn(tail, i) <==> GoesOn(s, i + 1) {
    }
    if Continues(tail) && GoesOn(s, 0) {
      forall i | 0 <= i < |s| ensures GoesOn(s, i) {
        if i > 0 {
          assert GoesOn(tail, i - 1);
        }
      }
    }
  }

  lemma DottedContinues(s: string)
    ensures IsDotted(s) <==> 1 <= |s| <= 64 && s[0] != '.' && Continues(s)
  {
    if Continues(s) {
      forall c | c in s ensures c == '.' || IsNameChar(c) {
        var i :| 0 <= i < |s| && s[i] == c;
        assert GoesOn(s, i);
      }
      forall i | 0 <= i < |s| && s[i] == '.' ensures i + 1 < |s| && s[i + 1] != '.' {
        assert GoesOn(s, i);
      }
    }
    if IsDotted(s) {
      forall i | 0 <= i < |s| ensures GoesOn(s, i) {
        assert s[i] in s;
      }
    }
  }

  /** The names that pass are exactly the dotted ones. */
  lemma NamesAreDotted(s: string)
    ensures ValidName(s) <==> IsDotted(s)
  {
    SplitContinues(s);
    SplitHead(s);
    DottedContinues(s);
    var parts := Split(s, '.');
    LabelIsChars(parts[0]);
    if ValidName(s) {
      assert IsLabel(parts[0]);
    }
    if IsDotted(s) {
      forall i | 0 <= i < |parts| ensures IsLabel(parts[i]) {
      }
    }
  }

  lemma KeysAreHex(s: string)
    ensures IsHexKey(s) <==> IsKey(s)
  {
    var digits := "0123456789abcdef";
    forall c: char ensures c in digits <==> '0' <= c <= '9' || 'a' <= c <= 'f' {
      if '0' <= c <= '9' {
        assert digits[c as int - '0' as int] == c;
      } else if 'a' <= c <= 'f' {
        assert digits[10 + c as int - 'a' as int] == c;
      }
    }
    if forall c :: c in s ==> c in digits {
      forall i | 0 <= i < |s| ensures '0' <= s[i] <= '9' || 'a' <= s[i] <= 'f' {
        assert s[i] in s;
      }
    }
  }

  lemma SoundEntryMeets(isIdentity: IdentityCheck, n: ApprovedName)
    ensures SoundEntry(isIdentity, n) <==> MeetsPolicy(isIdentity, n)
  {
    NamesAreDotted(n.name);
    KeysAreHex(n.ownerPubkey);
    if n.replacing.Some? {
      NamesAreDotted(n.replacing.value);
    }
  }

  /** Every entry meets the policy, no name is listed twice, and no wallet has two registrations. */
  ghost predicate SoundRegistry(isIdentity: IdentityCheck, names: seq<ApprovedName>)
  {
    && DistinctSoundEntries(isIdentity, names)
    && DistinctWallets(names)
  }

  ghost predicate DistinctSoundEntries(isIdentity: IdentityCheck, names: seq<ApprovedName>)
  {
    && (forall i :: 0 <= i < |names| ==> MeetsPolicy(isIdentity, names[i]))
    && (forall i, j :: 0 <= i < j < |names| ==> names[i].name != names[j].name)
  }

  /** The registry check that guards every gateway request; `ok` is false where the source throws. */
  method ValidateApprovedNames(isIdentity: IdentityCheck, names: seq<ApprovedName>) returns (ok: bool)
    ensures ok <==> SoundRegistry(isIdentity, names)
  {
    var used: set<string> := {};
    for i := 0 to |names|
      invariant DistinctSoundEntries(isIdentity, names[..i])
      invariant used == set n | n in names[..i] :: n.name
    {
      assert names[..i + 1] == names[..i] + [names[i]];
      SoundEntryMeets(isIdentity, names[i]);
      if !SoundEntry(isIdentity, names[i]) || names[i].name in used {
        EntryRefused(isIdentity, names, i);
        return false;
      }
      used := used + {names[i].name};
    }
    assert names[..|names|] == names;
    var registrations := Registrations(names);
    RegistrationsDistinct(names);
    ElementsDistinct(registrations);
    ok := |Elements(registrations)| == |registrations|;
  }

  lemma EntryRefused(isIdentity: IdentityCheck, names: seq<ApprovedName>, i: nat)
    requires i < |names|
    requires !SoundEntry(isIdentity, names[i]) || names[i].name in set n | n in names[..i] :: n.name
    ensures !SoundRegistry(isIdentity, names)
  {
    SoundEntryMeets(isIdentity, names[i]);
    if SoundEntry(isIdentity, names[i]) {
      var n :| n in names[..i] && n.name == names[i].name;
      var k :| 0 <= k < i && names[k] == n;
    }
  }

  /** `names.filter((n) => n.registration).map((n) => n.sparkIdentity)` */
  function Registrations(names: seq<ApprovedName>): seq<string>
  {
    if names == [] then []
    else (if names[0].registration then [names[0].sparkIdentity] else []) + Registrations(names[1..])
  }

  ghost predicate DistinctWallets(names: seq<ApprovedName>)
  {
    forall i, j :: 0 <= i < j < |names| && names[i].registration && names[j].registration ==>
      names[i].sparkIdentity != names[j].sparkIdentity
  }

  lemma {:induction false} RegistrationsMembers(names: seq<ApprovedName>, x: string)
    ensures x in Registrations(names) <==>
              exists i :: 0 <= i < |names| && names[i].registration && names[i].sparkIdentity == x
  {
    if names != [] {
      RegistrationsMembers(names[1..], x);
      if x in Registrations(names[1..]) {
        var i :| 0 <= i < |names[1..]| && names[1..][i].registration && names[1..][i].sparkIdentity == x;
        assert names[i + 1].registration;
      }
    }
  }

  lemma {:induction false} RegistrationsDistinct(names: seq<ApprovedName>)
    ensures Distinct(Registrations(names)) <==> DistinctWallets(names)
  {
    if names != [] {
      RegistrationsDistinct(names[1..]);
      RegistrationsMembers(names[1..], names[0].sparkIdentity);
      DistinctCons(names[0].sparkIdentity, Registrations(names[1..]));
      DistinctWalletsCons(names);
      assert [] + Registrations(names[1..]) == Registrations(names[1..]);
    }
  }

  lemma DistinctWalletsCons(names: seq<ApprovedName>)
    requires names != []
    ensures DistinctWallets(names) <==>
              && DistinctWallets(names[1..])
              && (names[0].registration ==>
                    !exists i :: 0 <= i < |names[1..]| && names[1..][i].registration &&
                                 names[1..][i].sparkIdentity == names[0].sparkIdentity)
  {
    forall i | 1 <= i < |names| ensures names[i] == names[1..][i - 1] {
    }
    if DistinctWallets(names) {
      forall i, j | 0 <= i < j < |names[1..]| && names[1..][i].registration && names[1..][j].registration
        ensures names[1..][i].sparkIdentity != names[1..][j].sparkIdentity
      {
        assert names[i + 1] == names[1..][i] && names[j + 1] == names[1..][j];
      }
      forall i | 0 <= i < |names[1..]| && names[1..][i].registration && names[0].registration
        ensures names[1..][i].sparkIdentity != names[0].sparkIdentity
      {
        assert names[i + 1] == names[1..][i];
      }
    }
  }

  /** The approval entry for a name and the wallet that signs. */
  predicate IsApproval(names: seq<ApprovedName>, name: string, identity: string, n: ApprovedName)
  {
    n in names && n.name == name && n.sparkIdentity == identity
  }

  /** `names.find(...)`: the first entry for the name and the wallet. */
  function FindApproval(names: seq<ApprovedName>, name: string, identity: string): (found: Option<ApprovedName>)
    ensures found.Some? ==> IsApproval(names, name, identity, found.value)
    ensures found.None? ==> forall n :: n in names ==> !IsApproval(names, name, identity, n)
  {
    if names == [] then None
    else if names[0].name == name && names[0].sparkIdentity == identity then Some(names[0])
    else
      assert forall n :: n in names ==> n == names[0] || n in names[1..];
      FindApproval(names[1..], name, identity)
  }

  /** In a sound registry the entry found is the only one there could be. */
  lemma ApprovalIsUnique(isIdentity: IdentityCheck, names: seq<ApprovedName>, name: string, identity: string,
                         n: ApprovedName)
    requires SoundRegistry(isIdentity, names)
    requires IsApproval(names, name, identity, n)
    ensures FindApproval(names, name, identity) == Some(n)
  {
    var found := FindApproval(names, name, identity).value;
    var i :| 0 <= i < |names| && names[i] == n;
    var j :| 0 <= j < |names| && names[j] == found;
  }
}
