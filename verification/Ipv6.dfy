/** Reading IPv6 text, prefixes, and the ranges that are public. */
module Ipv6 {
  import opened Wrappers
  import opened Text

  predicate IsHexDigit(c: char)
  {
    '0' <= c <= '9' || 'a' <= c <= 'f' || 'A' <= c <= 'F'
  }

  function HexDigit(c: char): nat
    requires IsHexDigit(c)
  {
    if '0' <= c <= '9' then c as int - '0' as int
    else if 'a' <= c <= 'f' then c as int - 'a' as int + 10
    else c as int - 'A' as int + 10
  }

  predicate AllHex(s: string)
  {
    forall i :: 0 <= i < |s| ==> IsHexDigit(s[i])
  }

  predicate IsGroup(s: string)
  {
    1 <= |s| <= 4 && AllHex(s)
  }

  predicate AllGroups(groups: seq<string>)
  {
    forall i :: 0 <= i < |groups| ==> IsGroup(groups[i])
  }

  /** The integer a group spells in hexadecimal. */
  function HexValue(s: string): nat
    requires AllHex(s)
  {
    if s == [] then 0 else HexValue(s[..|s| - 1]) * 16 + HexDigit(s[|s| - 1])
  }

  function GroupsValue(groups: seq<string>): nat
    requires AllGroups(groups)
  {
    if groups == [] then 0
    else GroupsValue(groups[..|groups| - 1]) * 0x1_0000 + HexValue(groups[|groups| - 1])
  }

  /** `s` without the brackets around it, if it has both. */
  function Unbracketed(s: string): string
  {
    if |s| >= 2 && s[0] == '[' && s[|s| - 1] == ']' then s[1..|s| - 1] else s
  }

  predicate DoubleColonAt(s: string, i: int)
  {
    0 <= i < |s| - 1 && s[i] == ':' && s[i + 1] == ':'
  }

  /** `s.indexOf("::")` from position i on. */
  function IndexOfDouble(s: string, i: nat): (k: int)
    requires i <= |s|
    ensures k == -1 ==> forall j :: i <= j ==> !DoubleColonAt(s, j)
    ensures k != -1 ==> i <= k && DoubleColonAt(s, k) && forall j :: i <= j < k ==> !DoubleColonAt(s, j)
    decreases |s| - i
  {
    if i >= |s| - 1 then -1
    else if DoubleColonAt(s, i) then i
    else IndexOfDouble(s, i + 1)
  }

  /** `s.lastIndexOf("::")` before position i. */
  function LastIndexOfDouble(s: string, i: nat): (k: int)
    requires i <= |s|
    ensures k == -1 ==> forall j :: 0 <= j < i ==> !DoubleColonAt(s, j)
    ensures k != -1 ==> 0 <= k < i && DoubleColonAt(s, k) && forall j :: k < j < i ==> !DoubleColonAt(s, j)
  {
    if i == 0 then -1
    else if DoubleColonAt(s, i - 1) then i - 1
    else LastIndexOfDouble(s, i - 1)
  }

  function SplitGroups(raw: string): seq<string>
  {
    if raw == "" then [] else Split(raw, ':')
  }

  function Zeros(n: nat): (zs: seq<string>)
    ensures |zs| == n && AllGroups(zs)
  {
    seq(n, _ => "0")
  }

  /** The eight group texts the reader arrives at, before it checks them one by one. */
  function EightGroups(u: string): (groups: Option<seq<string>>)
    ensures groups.Some? ==> |groups.value| == 8
  {
    if ':' !in u then None
    else
      var double := IndexOfDouble(u, 0);
      if double != -1 && double != LastIndexOfDouble(u, |u|) then None
      else
        var left := SplitGroups(if double == -1 then u else u[..double]);
        var right := SplitGroups(if double == -1 then "" else u[double + 2..]);
        var missing := 8 - |left| - |right|;
        if (double == -1 && missing != 0) || (double != -1 && missing < 1) then None
        else Some(left + Zeros(missing) + right)
  }

  /** What the IPv6 reader returns. */
  function ReadIpv6(s: string): Option<nat>
  {
    match EightGroups(Unbracketed(s))
    case None => None
    case Some(groups) =>
      if AllGroups(groups) then Some(GroupsValue(groups)) else None
  }

  lemma NextGroup(groups: seq<string>, n: nat)
    requires n < |groups| && AllGroups(groups[..n]) && IsGroup(groups[n])
    ensures AllGroups(groups[..n + 1])
    ensures GroupsValue(groups[..n + 1]) == GroupsValue(groups[..n]) * 0x1_0000 + HexValue(groups[n])
  {
    assert groups[..n + 1] == groups[..n] + [groups[n]];
  }

  method ParseIpv6Address(hostname: string) returns (address: Option<nat>)
    ensures address == ReadIpv6(hostname)
  {
    var eight := EightGroups(Unbracketed(hostname));
    if eight.None? {
      return None;
    }
    var groups := eight.value;
    var value := 0;
    for i := 0 to |groups|
      invariant AllGroups(groups[..i])
      invariant value == GroupsValue(groups[..i])
    {
      if !IsGroup(groups[i]) {
        return None;
      }
      NextGroup(groups, i);
      value := value * 0x1_0000 + HexValue(groups[i]);
    }
    assert groups[..|groups|] == groups;
    return Some(value);
  }

  // ----- the spellings of an address (section 2.2 of RFC 4291, forms 1 and 2) -----

  datatype Spelling = Full(groups: seq<string>) | Compressed(left: seq<string>, right: seq<string>)
  {
    predicate WellFormed()
    {
      && AllGroups(Groups())
      && match this
         case Full(groups) => |groups| == 8
         case Compressed(left, right) => |left| + |right| <= 7
    }

    function Groups(): seq<string>
    {
      match this
      case Full(groups) => groups
      case Compressed(left, right) =>
        left + Zeros(if |left| + |right| <= 8 then 8 - |left| - |right| else 0) + right
    }

    function Text(): string
    {
      match this
      case Full(groups) => Join(groups, ':')
      case Compressed(left, right) => Join(left, ':') + "::" + Join(right, ':')
    }
  }

  lemma JoinCons(groups: seq<string>)
    requires |groups| > 1 && AllGroups(groups) && AllGroups(groups[1..])
    requires JoinsCleanly(groups[1..])
    ensures JoinsCleanly(groups)
  {
    var head, rest := groups[0], Join(groups[1..], ':');
    var t := head + [':'] + rest;
    assert Join(groups, ':') == t;
    assert t[|head|] == ':' && t[|head| + 1] == rest[0] && t[|t| - 1] == rest[|rest| - 1] && t[0] == head[0];
    forall i ensures !DoubleColonAt(t, i) {
      if |head| < i < |t| - 1 {
        assert !DoubleColonAt(rest, i - |head| - 1);
      }
    }
  }

  /** The joined text has no double colon and no colon at either end. */
  ghost predicate JoinsCleanly(groups: seq<string>)
  {
    var t := Join(groups, ':');
    && (forall i :: !DoubleColonAt(t, i))
    && (groups != [] ==> t != "" && IsHexDigit(t[0]) && IsHexDigit(t[|t| - 1]))
    && (groups == [] ==> t == "")
    && (|groups| > 1 ==> ':' in t)
  }

  lemma {:induction false} JoinedGroups(groups: seq<string>)
    requires AllGroups(groups)
    ensures JoinsCleanly(groups)
  {
    if |groups| == 1 {
      assert IsGroup(groups[0]);
    } else if |groups| > 1 {
      JoinedGroups(groups[1..]);
      JoinCons(groups);
    }
  }

  lemma JoinedGroupsSplit(groups: seq<string>)
    requires AllGroups(groups)
    ensures SplitGroups(Join(groups, ':')) == groups
  {
    JoinedGroups(groups);
    if groups != [] {
      forall g | g in groups ensures ':' !in g {
      }
      SplitJoin(groups, ':');
    }
  }

  lemma FullReads(sp: Spelling)
    requires sp.Full? && sp.WellFormed()
    ensures Unbracketed(sp.Text()) == sp.Text() && EightGroups(sp.Text()) == Some(sp.Groups())
  {
    JoinedGroups(sp.groups);
    JoinedGroupsSplit(sp.groups);
    assert sp.groups + Zeros(0) + [] == sp.groups;
  }

  lemma CompressedDouble(left: seq<string>, right: seq<string>, i: int)
    requires AllGroups(left) && AllGroups(right)
    ensures DoubleColonAt(Compressed(left, right).Text(), i) <==> i == |Join(left, ':')|
  {
    JoinedGroups(left);
    JoinedGroups(right);
    var l, r := Join(left, ':'), Join(right, ':');
    var t := l + "::" + r;
    assert t[|l|] == ':' && t[|l| + 1] == ':';
    assert l != "" ==> t[|l| - 1] == l[|l| - 1];
    assert r != "" ==> t[|l| + 2] == r[0];
    if DoubleColonAt(t, i) {
      assert i < |l| - 1 ==> DoubleColonAt(l, i);
      assert i > |l| + 1 ==> DoubleColonAt(r, i - |l| - 2);
    }
  }

  lemma PartsAreGroups(left: seq<string>, zeros: seq<string>, right: seq<string>)
    ensures AllGroups(left + zeros + right) <==> AllGroups(left) && AllGroups(zeros) && AllGroups(right)
  {
    var all := left + zeros + right;
    if AllGroups(all) {
      forall i | 0 <= i < |left| ensures IsGroup(left[i]) {
        assert all[i] == left[i];
      }
      forall i | 0 <= i < |zeros| ensures IsGroup(zeros[i]) {
        assert all[|left| + i] == zeros[i];
      }
      forall i | 0 <= i < |right| ensures IsGroup(right[i]) {
        assert all[|left| + |zeros| + i] == right[i];
      }
    }
  }

  lemma CompressedParts(left: seq<string>, right: seq<string>)
    requires |left| + |right| <= 7 && AllGroups(left) && AllGroups(right)
    ensures var t, at := Compressed(left, right).Text(), |Join(left, ':')|;
            && ':' in t && t[0] != '['
            && IndexOfDouble(t, 0) == at && LastIndexOfDouble(t, |t|) == at
            && SplitGroups(t[..at]) == left && SplitGroups(t[at + 2..]) == right
  {
    var t, l, r := Compressed(left, right).Text(), Join(left, ':'), Join(right, ':');
    JoinedGroups(left);
    JoinedGroupsSplit(left);
    JoinedGroupsSplit(right);
    assert t[|l|] == ':' && t[..|l|] == l && t[|l| + 2..] == r;
    assert l != "" ==> t[0] == l[0];
    CompressedDouble(left, right, |l|);
    CompressedDouble(left, right, IndexOfDouble(t, 0));
    CompressedDouble(left, right, LastIndexOfDouble(t, |t|));
  }

  lemma CompressedReads(sp: Spelling)
    requires sp.Compressed? && sp.WellFormed()
    ensures Unbracketed(sp.Text()) == sp.Text() && EightGroups(sp.Text()) == Some(sp.Groups())
  {
    PartsAreGroups(sp.left, Zeros(8 - |sp.left| - |sp.right|), sp.right);
    CompressedParts(sp.left, sp.right);
  }

  /** Is `s` this spelling, bare or in brackets? */
  predicate Spells(s: string, sp: Spelling)
  {
    sp.WellFormed() && (s == sp.Text() || s == "[" + sp.Text() + "]")
  }

  lemma TextReads(sp: Spelling)
    requires sp.WellFormed()
    ensures Unbracketed(sp.Text()) == sp.Text() && EightGroups(sp.Text()) == Some(sp.Groups())
  {
    if sp.Full? {
      FullReads(sp);
    } else {
      CompressedReads(sp);
    }
  }

  lemma BracketsGo(t: string)
    ensures Unbracketed("[" + t + "]") == t
  {
    var s := "[" + t + "]";
    assert s[1..|s| - 1] == t;
  }

  lemma UnbracketedKeeps(s: string)
    ensures s == Unbracketed(s) || s == "[" + Unbracketed(s) + "]"
  {
  }

  /** Every spelling is read, as the value of its eight groups. */
  lemma SpellingReads(s: string, sp: Spelling)
    requires Spells(s, sp)
    ensures ReadIpv6(s) == Some(GroupsValue(sp.Groups()))
  {
    TextReads(sp);
    BracketsGo(sp.Text());
  }

  lemma FullSpelled(u: string)
    requires EightGroups(u).Some? && IndexOfDouble(u, 0) == -1
    ensures Full(Split(u, ':')).Text() == u && EightGroups(u).value == Full(Split(u, ':')).Groups()
  {
    JoinSplit(u, ':');
    assert Split(u, ':') + Zeros(0) + [] == Split(u, ':');
  }

  lemma SplitGroupsJoin(raw: string)
    ensures Join(SplitGroups(raw), ':') == raw
  {
    JoinSplit(raw, ':');
  }

  lemma CompressedSpelled(u: string)
    requires EightGroups(u).Some? && IndexOfDouble(u, 0) != -1
    ensures var double := IndexOfDouble(u, 0);
            var sp := Compressed(SplitGroups(u[..double]), SplitGroups(u[double + 2..]));
            sp.Text() == u && EightGroups(u).value == sp.Groups() && |sp.left| + |sp.right| <= 7
  {
    var double := IndexOfDouble(u, 0);
    var left, right := SplitGroups(u[..double]), SplitGroups(u[double + 2..]);
    SplitGroupsJoin(u[..double]);
    SplitGroupsJoin(u[double + 2..]);
    assert u == u[..double] + "::" + u[double + 2..];
    assert |left| + |right| <= 7;
    assert Compressed(left, right).Groups() == left + Zeros(8 - |left| - |right|) + right;
  }

  lemma GroupsSpelled(u: string) returns (sp: Spelling)
    requires EightGroups(u).Some?
    ensures sp.Text() == u && sp.Groups() == EightGroups(u).value
    ensures AllGroups(EightGroups(u).value) ==> sp.WellFormed()
  {
    var double := IndexOfDouble(u, 0);
    if double == -1 {
      FullSpelled(u);
      sp := Full(Split(u, ':'));
    } else {
      CompressedSpelled(u);
      sp := Compressed(SplitGroups(u[..double]), SplitGroups(u[double + 2..]));
    }
  }

  /** Only spellings are read. */
  lemma ReadIsSpelled(s: string) returns (sp: Spelling)
    requires ReadIpv6(s).Some?
    ensures Spells(s, sp) && ReadIpv6(s) == Some(GroupsValue(sp.Groups()))
  {
    UnbracketedKeeps(s);
    sp := GroupsSpelled(Unbracketed(s));
  }

  /** The reader accepts exactly the spellings with eight groups, or fewer around one double colon. */
  lemma ReadsExactlyTheSpellings(s: string, value: nat)
    ensures ReadIpv6(s) == Some(value) <==> exists sp :: Spells(s, sp) && GroupsValue(sp.Groups()) == value
  {
    if ReadIpv6(s).Some? {
      var sp := ReadIsSpelled(s);
    }
    forall sp | Spells(s, sp) ensures ReadIpv6(s) == Some(GroupsValue(sp.Groups())) {
      SpellingReads(s, sp);
    }
  }

  // ----- the value as a sum -----

  /** A digit, small or capital, is worth its place among the sixteen. */
  lemma DigitIsPlace(c: char, k: nat)
    requires k < 16
    ensures IsHexDigit(c) && HexDigit(c) == k <==> c == "0123456789abcdef"[k] || c == "0123456789ABCDEF"[k]
  {
  }

  /** A group is worth the sum of its digits at their places. */
  lemma GroupIsSum(s: string)
    requires IsGroup(s)
    ensures |s| == 1 ==> HexValue(s) == HexDigit(s[0])
    ensures |s| == 2 ==> HexValue(s) == HexDigit(s[0]) * 0x10 + HexDigit(s[1])
    ensures |s| == 3 ==> HexValue(s) == HexDigit(s[0]) * 0x100 + HexDigit(s[1]) * 0x10 + HexDigit(s[2])
    ensures |s| == 4 ==>
              HexValue(s) == HexDigit(s[0]) * 0x1000 + HexDigit(s[1]) * 0x100 + HexDigit(s[2]) * 0x10 + HexDigit(s[3])
  {
    if |s| > 1 {
      GroupIsSum(s[..|s| - 1]);
    } else {
      assert HexValue(s[..0]) == 0;
    }
  }

  function Pow2(n: nat): (p: nat)
    ensures p > 0
  {
    if n == 0 then 1 else 2 * Pow2(n - 1)
  }

  lemma Regroup(a: nat, b: nat)
    ensures 2 * a * b == 2 * (a * b)
  {
  }

  lemma {:induction false} Pow2Add(m: nat, n: nat)
    ensures Pow2(m + n) == Pow2(m) * Pow2(n)
  {
    if m > 0 {
      Pow2Add(m - 1, n);
      assert Pow2(m + n) == 2 * Pow2(m - 1 + n);
      Regroup(Pow2(m - 1), Pow2(n));
    }
  }

  /** The sum of group_i * 2^(16 * (|groups| - 1 - i)) over the first n groups. */
  function WeightedSum(groups: seq<string>, n: nat): nat
    requires n <= |groups| && AllGroups(groups)
  {
    if n == 0 then 0
    else WeightedSum(groups, n - 1) + HexValue(groups[n - 1]) * Pow2(16 * (|groups| - n))
  }

  lemma Pow2Values()
    ensures Pow2(4) == 16 && Pow2(16) == 0x1_0000
  {
    assert Pow2(4) == 16;
    Pow2Add(4, 4);
    Pow2Add(8, 8);
  }

  lemma {:induction false} ValueIsWeightedSum(groups: seq<string>)
    requires AllGroups(groups)
    ensures GroupsValue(groups) == WeightedSum(groups, |groups|)
  {
    if groups != [] {
      ValueIsWeightedSum(groups[..|groups| - 1]);
      ShiftedSum(groups, |groups| - 1);
      LastTerm(groups);
    }
  }

  lemma LastTerm(groups: seq<string>)
    requires AllGroups(groups) && groups != []
    ensures WeightedSum(groups, |groups|) == WeightedSum(groups, |groups| - 1) + HexValue(groups[|groups| - 1])
  {
    var h := HexValue(groups[|groups| - 1]);
    assert 16 * (|groups| - |groups|) == 0;
    assert h * Pow2(0) == h;
  }

  lemma {:induction false} ShiftedSum(groups: seq<string>, n: nat)
    requires n < |groups| && AllGroups(groups)
    ensures WeightedSum(groups, n) == WeightedSum(groups[..|groups| - 1], n) * 0x1_0000
  {
    if n > 0 {
      ShiftedSum(groups, n - 1);
      var front := groups[..|groups| - 1];
      var k, h := 16 * (|front| - n), HexValue(groups[n - 1]);
      Pow2Add(16, k);
      Pow2Values();
      assert 16 * (|groups| - n) == 16 + k;
      ShiftOne(WeightedSum(front, n - 1), h, Pow2(k));
    }
  }

  lemma ShiftOne(sum: nat, h: nat, p: nat)
    ensures (sum + h * p) * 0x1_0000 == sum * 0x1_0000 + h * (0x1_0000 * p)
  {
    assert h * p * 0x1_0000 == h * (0x1_0000 * p);
  }

  lemma {:induction false} HexValueBound(s: string)
    requires AllHex(s)
    ensures HexValue(s) < Pow2(4 * |s|)
  {
    if s != [] {
      HexValueBound(s[..|s| - 1]);
      Pow2Add(4, 4 * (|s| - 1));
      Pow2Values();
    }
  }

  lemma {:induction false} Pow2Monotone(m: nat, n: nat)
    requires m <= n
    ensures Pow2(m) <= Pow2(n)
  {
    if m < n {
      Pow2Monotone(m, n - 1);
    }
  }

  lemma {:induction false} GroupsValueBound(groups: seq<string>)
    requires AllGroups(groups)
    ensures GroupsValue(groups) < Pow2(16 * |groups|)
  {
    if groups != [] {
      var last := groups[|groups| - 1];
      GroupsValueBound(groups[..|groups| - 1]);
      HexValueBound(last);
      Pow2Monotone(4 * |last|, 16);
      Pow2Add(16, 16 * (|groups| - 1));
      Pow2Values();
    }
  }

  /** Each spelling reads as the sum of its eight groups at their 16-bit positions. */
  lemma SpellingReadsAsSum(s: string, sp: Spelling)
    requires Spells(s, sp)
    ensures |sp.Groups()| == 8
    ensures ReadIpv6(s) == Some(WeightedSum(sp.Groups(), 8))
  {
    SpellingReads(s, sp);
    ValueIsWeightedSum(sp.Groups());
  }

  const ADDRESS_BITS: nat := 128

  /** Whatever is read fits in the bits of an address. */
  lemma ReadFits(s: string)
    requires ReadIpv6(s).Some?
    ensures ReadIpv6(s).value < Pow2(ADDRESS_BITS)
  {
    var groups := EightGroups(Unbracketed(s)).value;
    GroupsValueBound(groups);
    assert 16 * |groups| == ADDRESS_BITS;
  }

  // ----- prefixes -----

  predicate HasIpv6Prefix(value: nat, prefix: nat, prefixLength: nat)
    requires prefixLength <= 128
  {
    var size := Pow2(128 - prefixLength);
    value / size == prefix / size
  }

  /** The aligned block of `size` addresses that `prefix` lies in. */
  predicate InAlignedBlock(value: nat, prefix: nat, size: nat)
    requires size > 0
  {
    prefix - prefix % size <= value < prefix - prefix % size + size
  }

  lemma MulMonotone(a: int, b: int, c: nat)
    requires a <= b
    ensures a * c <= b * c
  {
  }

  lemma SameQuotientIffSameBlock(value: nat, prefix: nat, size: nat)
    requires size > 0
    ensures value / size == prefix / size <==> InAlignedBlock(value, prefix, size)
  {
    BlockAt(value / size, value % size, prefix / size, prefix % size, size);
    assert value == value / size * size + value % size;
    assert prefix == prefix / size * size + prefix % size;
  }

  lemma BlockAt(k: nat, t: nat, q: nat, r: nat, size: nat)
    requires t < size && r < size
    ensures k == q <==> q * size <= k * size + t < q * size + size
  {
    if k < q {
      MulMonotone(k + 1, q, size);
    } else if k > q {
      MulMonotone(q + 1, k, size);
    }
  }

  /** Comparing prefixes is membership in the aligned block of 2^(128 - n) addresses. */
  lemma PrefixIsBlock(value: nat, prefix: nat, prefixLength: nat)
    requires prefixLength <= 128
    ensures HasIpv6Prefix(value, prefix, prefixLength) <==> InAlignedBlock(value, prefix, Pow2(128 - prefixLength))
  {
    SameQuotientIffSameBlock(value, prefix, Pow2(128 - prefixLength));
  }

  // ----- the public ranges -----

  const DOCUMENTATION := 0x20010db8_00000000_00000000_00000000
  const ORCHID := 0x20010010_00000000_00000000_00000000
  const ORCHID_V2 := 0x20010020_00000000_00000000_00000000
  const TEREDO := 0x20010000_00000000_00000000_00000000
  const SIX_TO_FOUR := 0x20020000_00000000_00000000_00000000
  const BENCHMARK := 0x20010002_00000000_00000000_00000000
  const DOCUMENTATION_V2 := 0x3fff0000_00000000_00000000_00000000
  const IETF_PROTOCOL_ASSIGNMENTS := 0x20010000_00000000_00000000_00000000
  const PCP_ANYCAST := 0x20010001_00000000_00000000_00000001
  const TURN_ANYCAST := 0x20010001_00000000_00000000_00000002
  const DNS_SD_ANYCAST := 0x20010001_00000000_00000000_00000003
  const AMT := 0x20010003_00000000_00000000_00000000
  const AS112 := 0x20010004_01120000_00000000_00000000
  const DET := 0x20010030_00000000_00000000_00000000

  predicate IsPublicIetfProtocolAssignment(value: nat)
  {
    || value == PCP_ANYCAST || value == TURN_ANYCAST || value == DNS_SD_ANYCAST
    || HasIpv6Prefix(value, AMT, 32) || HasIpv6Prefix(value, AS112, 48) || HasIpv6Prefix(value, DET, 28)
  }

  predicate IsPublicIpv6Address(value: nat)
  {
    if value / Pow2(125) != 1 then false
    else if HasIpv6Prefix(value, DOCUMENTATION, 32) then false
    else if HasIpv6Prefix(value, ORCHID, 28) then false
    else if HasIpv6Prefix(value, ORCHID_V2, 28) then false
    else if HasIpv6Prefix(value, TEREDO, 32) then false
    else if HasIpv6Prefix(value, SIX_TO_FOUR, 16) then false
    else if HasIpv6Prefix(value, BENCHMARK, 48) then false
    else if HasIpv6Prefix(value, DOCUMENTATION_V2, 20) then false
    else if HasIpv6Prefix(value, IETF_PROTOCOL_ASSIGNMENTS, 23) && !IsPublicIetfProtocolAssignment(value) then false
    else true
  }

  /** A prefix and its length, read as the run of addresses from the prefix on. */
  predicate InRun(value: nat, first: nat, size: nat)
  {
    first <= value < first + size
  }

  const SLASH_48 := 0x1_0000_0000_0000_0000_0000
  const SLASH_32 := 0x1_0000 * SLASH_48
  const SLASH_28 := 16 * SLASH_32
  const SLASH_23 := 512 * SLASH_32
  const SLASH_20 := 4096 * SLASH_32
  const SLASH_16 := 0x1_0000 * SLASH_32
  const SLASH_3 := 0x2000 * SLASH_16

  lemma SmallPowers()
    ensures Pow2(9) == 512 && Pow2(12) == 4096 && Pow2(13) == 0x2000
  {
    Pow2Values();
    assert Pow2(8) == 256 && Pow2(7) == 128;
    Pow2Add(4, 8);
  }

  lemma LargePowers()
    ensures Pow2(80) == SLASH_48 && Pow2(96) == SLASH_32
  {
    Pow2Values();
    Pow2Add(16, 16);
    assert Pow2(32) == 0x1_0000_0000;
    Pow2Add(32, 32);
    assert Pow2(64) == 0x1_0000_0000_0000_0000;
    Pow2Add(16, 64);
    assert Pow2(80) == SLASH_48;
    Pow2Add(16, 80);
  }

  lemma SizesOfBlocks()
    ensures Pow2(80) == SLASH_48 && Pow2(96) == SLASH_32 && Pow2(100) == SLASH_28 && Pow2(105) == SLASH_23
    ensures Pow2(108) == SLASH_20 && Pow2(112) == SLASH_16 && Pow2(125) == SLASH_3
  {
    Pow2Values();
    SmallPowers();
    LargePowers();
    Pow2Add(4, 96);
    Pow2Add(9, 96);
    Pow2Add(12, 96);
    Pow2Add(16, 96);
    assert Pow2(112) == SLASH_16;
    Pow2Add(13, 112);
  }

  /** Every prefix constant is aligned, so comparing it is membership in a run of addresses. */
  lemma AlignedPrefix(value: nat, prefix: nat, prefixLength: nat, size: nat)
    requires prefixLength <= 128 && size == Pow2(128 - prefixLength) && prefix % size == 0
    ensures HasIpv6Prefix(value, prefix, prefixLength) <==> InRun(value, prefix, size)
  {
    PrefixIsBlock(value, prefix, prefixLength);
  }

  /** The addresses whose first 32 bits lie among `count` values from `first` on. */
  predicate InBlocks(value: nat, first: nat, count: nat)
  {
    InRun(value, first * SLASH_32, count * SLASH_32)
  }

  /**
    The ranges that are excluded whatever they contain: 2001:db8::/32, 2001:10::/28, 2001:20::/28,
    2001::/32, 2002::/16, 2001:2::/48 and 3fff::/20.
   */
  predicate InDeniedRun(value: nat)
  {
    || InBlocks(value, 0x2001_0db8, 1) || InBlocks(value, 0x2001_0010, 16) || InBlocks(value, 0x2001_0020, 16)
    || InBlocks(value, 0x2001_0000, 1) || InBlocks(value, 0x2002_0000, 0x1_0000)
    || InRun(value, 0x2001_0002_0000 * SLASH_48, SLASH_48) || InBlocks(value, 0x3fff_0000, 0x1000)
  }

  /**
    The six exceptions inside 2001::/23: 2001:1::1, 2001:1::2, 2001:1::3, 2001:3::/32,
    2001:4:112::/48 and 2001:30::/28.
   */
  predicate InExceptedRun(value: nat)
  {
    || value == 0x2001_0001 * SLASH_32 + 1 || value == 0x2001_0001 * SLASH_32 + 2
    || value == 0x2001_0001 * SLASH_32 + 3 || InBlocks(value, 0x2001_0003, 1)
    || InRun(value, 0x2001_0004_0112 * SLASH_48, SLASH_48) || InBlocks(value, 0x2001_0030, 16)
  }

  predicate IsBlockSize(prefixLength: nat, size: nat)
  {
    match prefixLength
    case 48 => size == SLASH_48
    case 32 => size == SLASH_32
    case 28 => size == SLASH_28
    case 23 => size == SLASH_23
    case 20 => size == SLASH_20
    case 16 => size == SLASH_16
    case _ => false
  }

  lemma BlockSizeIsPower(prefixLength: nat, size: nat)
    requires IsBlockSize(prefixLength, size)
    ensures prefixLength <= 128 && size == Pow2(128 - prefixLength)
  {
    SizesOfBlocks();
  }

  /** AlignedPrefix for the block sizes in use. */
  lemma RunOf(value: nat, prefix: nat, prefixLength: nat, size: nat)
    requires IsBlockSize(prefixLength, size) && prefixLength <= 128 && size > 0 && prefix % size == 0
    ensures HasIpv6Prefix(value, prefix, prefixLength) <==> InRun(value, prefix, size)
  {
    BlockSizeIsPower(prefixLength, size);
    AlignedPrefix(value, prefix, prefixLength, size);
  }

  lemma DeniedPrefixes(value: nat)
    ensures InDeniedRun(value) <==>
              || HasIpv6Prefix(value, DOCUMENTATION, 32) || HasIpv6Prefix(value, ORCHID, 28)
              || HasIpv6Prefix(value, ORCHID_V2, 28) || HasIpv6Prefix(value, TEREDO, 32)
              || HasIpv6Prefix(value, SIX_TO_FOUR, 16) || HasIpv6Prefix(value, BENCHMARK, 48)
              || HasIpv6Prefix(value, DOCUMENTATION_V2, 20)
  {
    RunOf(value, DOCUMENTATION, 32, SLASH_32);
    RunOf(value, ORCHID, 28, SLASH_28);
    RunOf(value, ORCHID_V2, 28, SLASH_28);
    RunOf(value, TEREDO, 32, SLASH_32);
    RunOf(value, SIX_TO_FOUR, 16, SLASH_16);
    RunOf(value, BENCHMARK, 48, SLASH_48);
    RunOf(value, DOCUMENTATION_V2, 20, SLASH_20);
  }

  lemma ExceptedPrefixes(value: nat)
    ensures InExceptedRun(value) <==> IsPublicIetfProtocolAssignment(value)
    ensures HasIpv6Prefix(value, IETF_PROTOCOL_ASSIGNMENTS, 23) <==> InBlocks(value, 0x2001_0000, 512)
  {
    RunOf(value, AMT, 32, SLASH_32);
    RunOf(value, AS112, 48, SLASH_48);
    RunOf(value, DET, 28, SLASH_28);
    RunOf(value, IETF_PROTOCOL_ASSIGNMENTS, 23, SLASH_23);
  }

  /** The public addresses: 2000::/3 less the denied runs and less 2001::/23 but for its exceptions. */
  lemma PublicIpv6Ranges(value: nat)
    ensures IsPublicIpv6Address(value) <==>
              && InBlocks(value, 0x2000_0000, 0x2000_0000) && !InDeniedRun(value)
              && (InBlocks(value, 0x2001_0000, 512) ==> InExceptedRun(value))
  {
    SizesOfBlocks();
    DeniedPrefixes(value);
    ExceptedPrefixes(value);
    SameQuotientIffSameBlock(value, SLASH_3, SLASH_3);
    assert SLASH_3 / SLASH_3 == 1 && SLASH_3 % SLASH_3 == 0;
  }

  /**
    Inside 2001::/23 the public addresses are exactly the six exceptions: each lies in that block
    and in 2000::/3, and none meets a denied run.
   */
  lemma PublicInsideProtocolAssignments(value: nat)
    ensures InBlocks(value, 0x2001_0000, 512) ==>
              (IsPublicIpv6Address(value) <==> InExceptedRun(value))
    ensures InExceptedRun(value) ==>
              InBlocks(value, 0x2001_0000, 512) && !InDeniedRun(value)
  {
    PublicIpv6Ranges(value);
  }
}
