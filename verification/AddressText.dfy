/** What the texts of addresses and ranges denote: section 2.2 of RFC 4291, section 3.1 of RFC 4632. */
module AddressText {
  import opened Serial
  import opened Text
  import opened Numerals
  import opened Address

  // ---------------------------------------------------------------- splitting what was joined

  lemma {:induction false} SplitOfJoin(parts: seq<string>, c: char)
    requires parts != [] && forall i | 0 <= i < |parts| :: c !in parts[i]
    ensures Split(Join(parts, c), c) == parts
  {
    var s := Join(parts, c);
    if |parts| == 1 {
      IndexOfSeparator(parts[0], c, "");
    } else {
      var rest := Join(parts[1..], c);
      IndexOfSeparator(parts[0], c, rest);
      assert s == parts[0] + [c] + rest;
      assert s[..|parts[0]|] == parts[0] && s[|parts[0]| + 1..] == rest;
      SplitOfJoin(parts[1..], c);
      assert parts == [parts[0]] + parts[1..];
    }
  }

  lemma {:induction false} JoinWithout(parts: seq<string>, c: char, x: char)
    requires parts != [] && c != x && forall i | 0 <= i < |parts| :: x !in parts[i]
    ensures x !in Join(parts, c)
  {
    if |parts| > 1 { JoinWithout(parts[1..], c, x); }
  }

  // ---------------------------------------------------------------- IPv4

  predicate IsQuad(q: seq<nat>) {
    |q| == 4 && forall i | 0 <= i < 4 :: q[i] < 256
  }

  /** A dotted quad. */
  function QuadText(q: seq<nat>): string
    requires IsQuad(q)
  {
    Join([Decimal(q[0]), Decimal(q[1]), Decimal(q[2]), Decimal(q[3])], '.')
  }

  lemma DecimalPlain(n: nat)
    ensures AllDigits(Decimal(n), 10) && Number(Decimal(n), 10) == n
    ensures forall c | c in Decimal(n) :: c in "0123456789"
    ensures forall i | 0 <= i < |Decimal(n)| :: Decimal(n)[i] >= '0'
  {
    DecimalReads(n);
    forall c | c in Decimal(n) ensures c in "0123456789" { DigitsAre(c); }
  }

  /** A decimal number is read as it is if it fits. */
  lemma DecimalInt(n: nat)
    requires n < 0x8000_0000
    ensures ToIntOrNull(Decimal(n)) == Some(n)
  {
    hide Decimal, Number;
    DecimalPlain(n);
  }

  lemma {:induction false} NoLeadingZero(n: nat)
    ensures Decimal(n)[0] == '0' <==> n == 0
    ensures n < 10 ==> |Decimal(n)| == 1
    ensures n >= 10 ==> |Decimal(n)| == |Decimal(n / 10)| + 1
  {
    if n >= 10 {
      NoLeadingZero(n / 10);
      assert Decimal(n)[0] == Decimal(n / 10)[0];
    }
  }

  lemma OctetSize(n: nat)
    requires n < 256
    ensures 1 <= |Decimal(n)| <= 3 && (Decimal(n)[0] == '0' ==> |Decimal(n)| == 1)
  {
    hide Decimal;
    NoLeadingZero(n);
    NoLeadingZero(n / 10);
    NoLeadingZero(n / 100);
    assert n / 10 / 10 == n / 100;
  }

  lemma OctetText(n: nat)
    requires n < 256
    ensures IsValidOctet(Decimal(n))
  {
    hide Decimal, ToIntOrNull;
    OctetSize(n);
    DecimalInt(n);
  }

  /** Exactly these are octets: the numbers up to 255 as they print, and, against the usual rule, one or two digits
      behind a plus sign and zeros behind a minus sign. */
  lemma OctetsAre(part: string)
    ensures IsValidOctet(part) <==>
              || (exists n: nat :: n < 256 && part == Decimal(n))
              || (2 <= |part| <= 3 && part[0] == '+' && AllDigits(part[1..], 10))
              || part in {"-0", "-00"}
  {
    hide Decimal, Number;
    if exists n: nat :: n < 256 && part == Decimal(n) {
      var n: nat :| n < 256 && part == Decimal(n);
      OctetText(n);
    }
    if part != "" && part[0] >= '0' && IsValidOctet(part) {
      PrintedBack(part);
    }
    if part in {"-0", "-00"} { MinusZero(part); }
    if 2 <= |part| <= 3 && part[0] < '0' && AllDigits(part[1..], 10) {
      TwoDigits(part[1..]);
      if part[0] == '-' && IsValidOctet(part) {
        OnlyZeros(part[1..]);
        assert part == ['-'] + part[1..] && ['-'] + "0" == "-0" && ['-'] + "00" == "-00";
      }
    }
  }

  lemma MinusZero(part: string)
    requires part in {"-0", "-00"}
    ensures IsValidOctet(part)
  {
    assert "-0"[1..] == "0" && "-00"[1..] == "00" && "00"[..1] == "0" && "0"[..0] == "";
    assert Number("0", 10) == 0;
    assert Number("00", 10) == 0;
    assert DigitOf('0', 10) == Some(0);
  }

  lemma TwoDigits(s: string)
    requires 1 <= |s| <= 2 && AllDigits(s, 10)
    ensures Number(s, 10) <= 99
  {
    NumberSize(s);
    assert Power(10, 1) == 10 && Power(10, 2) == 100;
  }

  lemma OnlyZeros(s: string)
    requires 1 <= |s| <= 2 && AllDigits(s, 10) && Number(s, 10) == 0
    ensures s == "0" || s == "00"
  {
    var m := |s| - 1;
    assert s[..m] + [s[m]] == s;
    if m == 1 {
      assert s[..1] == [s[0]] && s[..1][..0] == "";
      assert Number(s[..1], 10) == DigitOf(s[0], 10).value;
    }
  }

  /** Every dotted quad is an address, and denotes its number. */
  lemma QuadRead(q: seq<nat>)
    requires IsQuad(q)
    ensures IsValidIpv4(QuadText(q)) && Ipv4Number(QuadText(q)) == Positional(q, 256)
    ensures '/' !in QuadText(q) && ':' !in QuadText(q)
  {
    hide Decimal, ToIntOrNull, Join, Split, IsValidOctet, Positional;
    var parts := [Decimal(q[0]), Decimal(q[1]), Decimal(q[2]), Decimal(q[3])];
    forall i | 0 <= i < 4
      ensures IsValidOctet(parts[i]) && ToIntOrNull(parts[i]) == Some(q[i])
      ensures '.' !in parts[i] && '/' !in parts[i] && ':' !in parts[i]
    {
      OctetText(q[i]);
      DecimalInt(q[i]);
      DecimalPlain(q[i]);
    }
    SplitOfJoin(parts, '.');
    JoinWithout(parts, '.', '/');
    JoinWithout(parts, '.', ':');
    QuadNumber(q);
    assert QuadText(q) != "" by { if QuadText(q) == "" { EmptySplits('.'); } }
  }

  lemma EmptySplits(c: char)
    ensures Split("", c) == [""]
  {
  }

  lemma QuadNumber(q: seq<nat>)
    requires IsQuad(q)
    ensures Positional(q, 256) == ((q[0] * 256 + q[1]) * 256 + q[2]) * 256 + q[3]
  {
    assert Power(256, 1) == 256 && Power(256, 2) == 65536;
    assert Power(256, 3) == 256 * 65536;
    assert q[1..][1..] == q[2..] && q[2..][1..] == q[3..] && q[3..][1..] == [];
    assert Positional(q[3..], 256) == q[3];
    assert Positional(q[2..], 256) == q[2] * Power(256, 1) + q[3];
    assert Positional(q[1..], 256) == q[1] * Power(256, 2) + Positional(q[2..], 256);
    assert Positional(q, 256) == q[0] * Power(256, 3) + Positional(q[1..], 256);
  }

  // ---------------------------------------------------------------- IPv6

  /** Groups of one to four hexadecimal digits, all eight of them or around a gap. */
  datatype Spelling = Whole(groups: seq<string>) | Gap(left: seq<string>, right: seq<string>)

  predicate AreGroups(gs: seq<string>) {
    forall i | 0 <= i < |gs| :: IsGroup(gs[i])
  }

  predicate IsGroup(g: string) {
    1 <= |g| <= 4 && forall i | 0 <= i < |g| :: g[i] in "0123456789abcdefABCDEF"
  }

  predicate WellSpelled(t: Spelling) {
    match t
    case Whole(gs) => AreGroups(gs) && gs != []
    case Gap(l, r) => AreGroups(l) && AreGroups(r)
  }

  function Colons(gs: seq<string>): string {
    if gs == [] then "" else Join(gs, ':')
  }

  function Spelled(t: Spelling): string {
    match t
    case Whole(gs) => Colons(gs)
    case Gap(l, r) => Colons(l) + "::" + Colons(r)
  }

  /** The eight groups, or as many around the gap that what the gap adds to one side makes six at most. */
  predicate Accepted(t: Spelling) {
    match t
    case Whole(gs) => |gs| == 8
    case Gap(l, r) => |l| + |r| + (if (l == []) != (r == []) then 1 else 0) <= 6
  }

  lemma GroupIs(g: string)
    ensures IsGroup(g) <==> IsHexGroup(g)
    ensures IsGroup(g) ==> ':' !in g && '/' !in g && '.' !in g
  {
    forall c ensures DigitOf(c, 16).Some? <==> c in "0123456789abcdefABCDEF" { DigitsAre(c); }
    if IsGroup(g) {
      assert ':' !in "0123456789abcdefABCDEF" && '/' !in "0123456789abcdefABCDEF";
      assert '.' !in "0123456789abcdefABCDEF";
    }
  }

  /** No two colons meet, and none stands at an end. */
  predicate Apart(s: string) {
    && (s != "" ==> s[0] != ':' && s[|s| - 1] != ':')
    && forall i | 0 <= i < |s| - 1 :: s[i] != ':' || s[i + 1] != ':'
  }

  lemma {:induction false} ColonsApart(gs: seq<string>)
    requires AreGroups(gs)
    ensures Apart(Colons(gs)) && (Colons(gs) == "" <==> gs == [])
    ensures '/' !in Colons(gs) && '.' !in Colons(gs)
  {
    hide Apart, IsGroup;
    if gs != [] {
      GroupApart(gs[0]);
      if |gs| > 1 {
        ColonsApart(gs[1..]);
        JoinedApart(gs[0], Colons(gs[1..]));
        assert Colons(gs) == gs[0] + [':'] + Colons(gs[1..]);
      }
    } else {
      NothingApart();
    }
  }

  lemma NothingApart()
    ensures Apart("")
  {
  }

  lemma GroupApart(g: string)
    requires IsGroup(g)
    ensures Apart(g) && g != "" && '/' !in g && '.' !in g
  {
    GroupIs(g);
  }

  lemma JoinedApart(a: string, b: string)
    requires Apart(a) && Apart(b) && a != "" && b != ""
    ensures Apart(a + [':'] + b)
  {
  }

  /** The same, but for a colon in front. */
  predicate Tight(s: string) {
    && (s != "" ==> s[|s| - 1] != ':')
    && forall i | 0 <= i < |s| - 1 :: s[i] != ':' || s[i + 1] != ':'
  }

  lemma TightRest(s: string)
    requires Tight(s) && s != ""
    ensures Tight(s[1..]) && (|s| == 1 ==> s[..1] + ":" != "::") && (|s| > 1 ==> s[..2] != "::")
  {
    if |s| == 1 { assert (s[..1] + ":")[0] == s[0]; } else { assert s[..2][0] == s[0] && s[..2][1] == s[1]; }
  }

  lemma {:induction false} GapAt(s: string, rest: string)
    requires Tight(s)
    ensures IndexOfGap(s + "::" + rest) == |s|
  {
    hide Tight;
    var all := s + "::" + rest;
    if s == "" {
      assert all[..2] == "::";
    } else {
      TightRest(s);
      assert all[..2] == if |s| > 1 then s[..2] else s[..1] + ":";
      GapAt(s[1..], rest);
      assert all[1..] == s[1..] + "::" + rest;
    }
  }

  lemma {:induction false} NoGap(s: string)
    requires Tight(s)
    ensures IndexOfGap(s) == |s|
  {
    hide Tight;
    if |s| >= 2 {
      TightRest(s);
      NoGap(s[1..]);
    }
  }

  lemma {:induction false} GroupsBack(gs: seq<string>)
    requires AreGroups(gs)
    ensures GroupList(Colons(gs)) == gs && AreAllBytes(Colons(gs))
    ensures Count(Colons(gs), ':') == if gs == [] then 0 else |gs| - 1
  {
    hide Join, Split, IsGroup, IsHexGroup, Count;
    ColonsApart(gs);
    forall i | 0 <= i < |gs| ensures ':' !in gs[i] && IsHexGroup(gs[i]) { GroupIs(gs[i]); }
    if gs != [] {
      SplitOfJoin(gs, ':');
    }
    GroupCount(Colons(gs));
    if gs == [] { CountNone("", ':'); }
  }

  /** How such a text is taken apart. */
  lemma Parts(t: Spelling)
    requires WellSpelled(t)
    ensures SplitGap(Spelled(t)) == (match t
                                     case Whole(gs) => [Colons(gs)]
                                     case Gap(l, r) => [Colons(l), Colons(r)])
    ensures IndexOfGap(Spelled(t)) < |Spelled(t)| <==> t.Gap?
  {
    hide IndexOfGap, Colons, AreGroups;
    match t
    case Whole(gs) =>
      ColonsApart(gs);
      NoGap(Colons(gs));
    case Gap(l, r) =>
      ColonsApart(l);
      ColonsApart(r);
      GapAt(Colons(l), Colons(r));
      NoGap(Colons(r));
      var s := Spelled(t);
      assert s[..|Colons(l)|] == Colons(l) && s[|Colons(l)| + 2..] == Colons(r);
  }

  /** Which spellings are addresses.  Section 2.2 of RFC 4291 also lets the gap stand for one group, and for two at
      an end. */
  lemma SpellingAccepted(t: Spelling)
    requires WellSpelled(t)
    ensures IsValidIpv6(Spelled(t)) <==> Accepted(t)
  {
    hide IndexOfGap, Colons, AreAllBytes, Count, SplitGap, AreGroups, GroupList;
    Parts(t);
    match t
    case Whole(gs) =>
      ColonsApart(gs);
      GroupsBack(gs);
      WholeIsNotGap(gs);
    case Gap(l, r) =>
      ColonsApart(l);
      ColonsApart(r);
      GroupsBack(l);
      GroupsBack(r);
      GapColons(Colons(l), Colons(r));
      if Spelled(t) == "::" { assert |Colons(l)| + |Colons(r)| == 0; }
  }

  lemma WholeIsNotGap(gs: seq<string>)
    requires AreGroups(gs) && gs != []
    ensures Colons(gs) != "" && Colons(gs) != "::"
  {
    hide Colons, AreGroups;
    ColonsApart(gs);
  }

  /** And nothing else is. */
  lemma OnlySpellings(s: string)
    requires IsValidIpv6(s)
    ensures exists t :: WellSpelled(t) && Accepted(t) && s == Spelled(t)
  {
    hide IsValidIpv6, IndexOfGap, GroupList, AreGroups, Colons, Accepted;
    ValidIpv6Shape(s);
    GapParts(s);
    var parts := SplitGap(s);
    forall i | 0 <= i < |parts| ensures AreGroups(GroupList(parts[i])) && Colons(GroupList(parts[i])) == parts[i] {
      GroupsOf(parts[i]);
    }
    var t := if |parts| == 1 then Whole(GroupList(parts[0])) else Gap(GroupList(parts[0]), GroupList(parts[1]));
    SpellingAccepted(t);
  }

  lemma GapParts(s: string)
    ensures |SplitGap(s)| == 1 ==> SplitGap(s) == [s]
    ensures |SplitGap(s)| == 2 ==> s == SplitGap(s)[0] + "::" + SplitGap(s)[1]
  {
    hide IndexOfGap;
    var i := IndexOfGap(s);
    if i < |s| {
      OnePart(s[i + 2..]);
      assert s == s[..i] + s[i..i + 2] + s[i + 2..];
    }
  }

  lemma GroupsOf(s: string)
    requires AreAllBytes(s)
    ensures AreGroups(GroupList(s)) && Colons(GroupList(s)) == s
  {
    hide Join, Split, IsGroup, IsHexGroup;
    if s != "" {
      SplitJoins(s, ':');
      var gs := Split(s, ':');
      forall i | 0 <= i < |gs| ensures IsGroup(gs[i]) { GroupIs(gs[i]); }
    }
  }

  /** The values of groups. */
  function Numbers(gs: seq<string>): (v: seq<nat>)
    requires AreGroups(gs)
    ensures |v| == |gs|
  {
    if gs == [] then []
    else
      GroupIs(gs[0]);
      [Number(gs[0], 16)] + Numbers(gs[1..])
  }

  lemma {:induction false} NumbersAt(gs: seq<string>, i: nat)
    requires AreGroups(gs) && i < |gs|
    ensures IsHexGroup(gs[i]) && Numbers(gs)[i] == Number(gs[i], 16)
  {
    GroupIs(gs[i]);
    if i > 0 { NumbersAt(gs[1..], i - 1); }
  }

  function Zeros(n: nat): seq<nat> {
    if n == 0 then [] else [0] + Zeros(n - 1)
  }

  lemma {:induction false} ZerosAre(n: nat)
    ensures Zeros(n) == seq(n, _ => 0)
  {
    if n > 0 { ZerosAre(n - 1); }
  }

  /** What an address denotes: its groups, with zeros for the gap. */
  function Denoted(t: Spelling): (v: seq<nat>)
    requires WellSpelled(t) && Accepted(t)
    ensures |v| == 8
  {
    match t
    case Whole(gs) => Numbers(gs)
    case Gap(l, r) =>
      ZerosAre(8 - |l| - |r|);
      Numbers(l) + Zeros(8 - |l| - |r|) + Numbers(r)
  }

  lemma ValuesOf(gs: seq<string>)
    requires AreGroups(gs)
    ensures AreAllBytes(Colons(gs)) && GroupValues(Colons(gs)) == Numbers(gs)
  {
    hide Join, Split, IsGroup, IsHexGroup, AreAllBytes, GroupList, Number, Colons, AreGroups, Numbers;
    GroupsBack(gs);
    assert AreAllBytes(Colons(gs));
    var v := GroupValues(Colons(gs));
    forall i | 0 <= i < |gs| ensures v[i] == Numbers(gs)[i] {
      GroupTexts(Colons(gs), i);
      NumbersAt(gs, i);
    }
  }

  /** Every accepted spelling is read as what it denotes. */
  lemma GroupsRead(t: Spelling)
    requires WellSpelled(t) && Accepted(t)
    ensures IsValidIpv6(Spelled(t)) && Groups(Spelled(t)) == Denoted(t)
    ensures '/' !in Spelled(t) && '.' !in Spelled(t)
  {
    hide IsValidIpv6, AreAllBytes, GroupList, Colons, AreGroups, GroupValues, SplitGap, IndexOfGap, Numbers;
    SpellingAccepted(t);
    Parts(t);
    match t
    case Whole(gs) =>
      ValuesOf(gs);
      ColonsApart(gs);
    case Gap(l, r) =>
      ValuesOf(l);
      ValuesOf(r);
      ZerosAre(8 - |l| - |r|);
      ColonsApart(l);
      ColonsApart(r);
  }

  // ---------------------------------------------------------------- ranges

  function Quotient(x: nat, p: nat): nat
    requires p > 0
  {
    x / p
  }

  lemma DivDiv(v: nat, p: nat)
    requires p > 0
    ensures Quotient(v / 2, p) == Quotient(v, 2 * p)
  {
    hide Quotient;
    var q := Quotient(v, 2 * p);
    Bounds(v, 2 * p);
    Doubled(q, p);
    Halved(v, q * p, p);
    DivUnique(v / 2, p, q);
  }

  lemma Doubled(q: nat, p: nat)
    ensures q * (2 * p) == 2 * (q * p)
  {
  }

  lemma Halved(v: nat, k: nat, p: nat)
    requires 2 * k <= v < 2 * k + 2 * p
    ensures k <= v / 2 < k + p
  {
  }

  lemma Bounds(x: nat, p: nat)
    requires p > 0
    ensures Quotient(x, p) * p <= x < Quotient(x, p) * p + p
  {
  }

  lemma DivUnique(x: nat, p: nat, q: nat)
    requires p > 0 && q * p <= x < q * p + p
    ensures Quotient(x, p) == q
  {
    hide Quotient;
    var d := Quotient(x, p);
    Bounds(x, p);
    if d > q { Grows(d, q, p); }
    if d < q { Grows(q, d, p); }
  }

  lemma Grows(a: nat, b: nat, p: nat)
    requires a > b
    ensures a * p >= b * p + p
  {
    var more := a - b - 1;
    assert a * p == b * p + p + more * p by { assert a == b + 1 + more; }
  }

  lemma {:induction false} ShrIsQuotient(v: nat, n: nat)
    ensures Shr(v, n) == Quotient(v, Pow2(n))
  {
    hide Quotient;
    if n > 0 {
      ShrIsQuotient(v / 2, n - 1);
      DivDiv(v, Pow2(n - 1));
    } else {
      DivUnique(v, 1, v);
    }
  }

  lemma {:induction false} GroupsNumberIs(g: seq<nat>)
    ensures GroupsNumber(g) == Positional(g, 0x1_0000)
  {
    hide Positional;
    if g != [] {
      GroupsNumberIs(g[..|g| - 1]);
      ValueFromRight(g, 0x1_0000);
    } else {
      NoValue();
    }
  }

  lemma NoValue()
    ensures Positional([], 0x1_0000) == 0
  {
  }

  lemma RangeSplits(address: string, bits: nat)
    requires '/' !in address && bits < 0x8000_0000
    ensures var range := address + "/" + Decimal(bits);
            Split2(range, '/') == [address, Decimal(bits)] && ToIntOrNull(Decimal(bits)) == Some(bits) && range != ""
  {
    hide Decimal, ToIntOrNull;
    var range := address + "/" + Decimal(bits);
    DecimalInt(bits);
    IndexOfSeparator(address, '/', Decimal(bits));
    assert range[..|address|] == address && range[|address| + 1..] == Decimal(bits);
  }

  lemma NotIpv4(s: string)
    requires '.' !in s
    ensures !IsValidIpv4(s)
  {
    hide IsValidOctet;
    IndexOfSeparator(s, '.', "");
  }

  lemma NotIpv6(s: string)
    requires ':' !in s
    ensures !IsValidIpv6(s)
  {
    hide AreAllBytes, SplitGap;
    CountNone(s, ':');
    assert "::"[0] == ':';
  }

  /** A range of IPv4 is a quad, a slash and up to 32 bits; an address is in it exactly if the quotients of the two
      numbers by the size of the range agree. */
  lemma QuadInRange(q: seq<nat>, r: seq<nat>, bits: nat)
    requires IsQuad(q) && IsQuad(r) && bits < 0x8000_0000
    ensures var range := QuadText(r) + "/" + Decimal(bits);
            && (IsValidIpRange(range) <==> bits <= 32)
            && (bits <= 32 ==>
                  (InRange(QuadText(q), range) <==>
                   Quotient(Positional(q, 256), Pow2(32 - bits)) == Quotient(Positional(r, 256), Pow2(32 - bits))))
  {
    hide Decimal, ToIntOrNull, IsValidIpv4, IsValidIpv6, QuadText, Positional, Pow2, Shr, Ipv4Number, Split2, Groups;
    hide Quotient;
    QuadRead(q);
    QuadRead(r);
    RangeSplits(QuadText(r), bits);
    NotIpv6(QuadText(r));
    if bits <= 32 {
      ShrIsQuotient(Positional(q, 256), 32 - bits);
      ShrIsQuotient(Positional(r, 256), 32 - bits);
    }
  }

  /** And of IPv6, with up to 128 bits. */
  lemma GroupsInRange(t: Spelling, u: Spelling, bits: nat)
    requires WellSpelled(t) && Accepted(t) && WellSpelled(u) && Accepted(u) && bits < 0x8000_0000
    ensures var range := Spelled(u) + "/" + Decimal(bits);
            && (IsValidIpRange(range) <==> bits <= 128)
            && (bits <= 128 ==>
                  (InRange(Spelled(t), range) <==>
                   Quotient(Positional(Denoted(t), 0x1_0000), Pow2(128 - bits))
                   == Quotient(Positional(Denoted(u), 0x1_0000), Pow2(128 - bits))))
  {
    hide Decimal, ToIntOrNull, IsValidIpv4, IsValidIpv6, Spelled, Positional, Pow2, Shr, Ipv4Number, Split2, Groups;
    hide Denoted, WellSpelled, Accepted, GroupsNumber, Quotient;
    GroupsRead(t);
    GroupsRead(u);
    RangeSplits(Spelled(u), bits);
    NotIpv4(Spelled(t));
    NotIpv4(Spelled(u));
    GroupsNumberIs(Denoted(t));
    GroupsNumberIs(Denoted(u));
    if bits <= 128 {
      ShrIsQuotient(Positional(Denoted(t), 0x1_0000), 128 - bits);
      ShrIsQuotient(Positional(Denoted(u), 0x1_0000), 128 - bits);
    }
  }

  /** An address of one version is in no range of the other. */
  lemma OtherVersion(q: seq<nat>, t: Spelling, bits: nat)
    requires IsQuad(q) && WellSpelled(t) && Accepted(t) && bits < 0x8000_0000
    ensures !InRange(QuadText(q), Spelled(t) + "/" + Decimal(bits))
    ensures !InRange(Spelled(t), QuadText(q) + "/" + Decimal(bits))
  {
    hide Decimal, ToIntOrNull, IsValidIpv4, IsValidIpv6, Spelled, QuadText, Shr, Ipv4Number, Split2, Groups;
    hide WellSpelled, Accepted;
    QuadRead(q);
    GroupsRead(t);
    NotIpv4(Spelled(t));
    NotIpv6(QuadText(q));
    RangeSplits(QuadText(q), bits);
    RangeSplits(Spelled(t), bits);
  }
}
