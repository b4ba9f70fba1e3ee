/** Utils.kt: validating IP addresses and ranges, and matching an address against a range. */
module Address {
  import opened Serial
  import opened Text

  // ---------------------------------------------------------------- validators

  predicate IsValidOctet(part: string) {
    && part != "" && |part| <= 3 && !(part[0] == '0' && |part| > 1)
    && ToIntOrNull(part).Some?
    && 0 <= ToIntOrNull(part).value <= 255
  }

  predicate IsValidIpv4(address: string) {
    && address != ""
    && var parts := Split(address, '.');
       |parts| == 4 && forall i | 0 <= i < 4 :: IsValidOctet(parts[i])
  }

  /** `s.indexOf("::")`, or `|s|`. */
  function IndexOfGap(s: string): (i: nat)
    ensures i <= |s| && (i < |s| ==> i + 2 <= |s| && s[i..i + 2] == "::")
  {
    if |s| < 2 then |s| else if s[..2] == "::" then 0 else 1 + IndexOfGap(s[1..])
  }

  /** `s.split("::")`. */
  function SplitGap(s: string): (parts: seq<string>)
    ensures parts != []
    decreases |s|
  {
    var i := IndexOfGap(s);
    if i == |s| then [s] else [s[..i]] + SplitGap(s[i + 2..])
  }

  predicate IsHexGroup(part: string) {
    1 <= |part| <= 4 && AllDigits(part, 16)
  }

  /** The local function `areAllBytes`. */
  predicate AreAllBytes(s: string) {
    s == "" || forall i | 0 <= i < |Split(s, ':')| :: IsHexGroup(Split(s, ':')[i])
  }

  predicate IsValidIpv6(address: string) {
    if address == "" then false
    else if address == "::" then true
    else
      var colons := Count(address, ':');
      if colons < 2 || colons > 7 then false
      else if IndexOfGap(address) < |address| then
        && colons != 7
        && var parts := SplitGap(address);
           |parts| == 2 && AreAllBytes(parts[0]) && AreAllBytes(parts[1])
      else colons == 7 && AreAllBytes(address)
  }

  predicate IsValidIp(address: string) {
    IsValidIpv4(address) || IsValidIpv6(address)
  }

  predicate IsRange(s: string, maxBits: nat) {
    && s != ""
    && |Split2(s, '/')| == 2
    && ToIntOrNull(Split2(s, '/')[1]).Some?
    && 0 <= ToIntOrNull(Split2(s, '/')[1]).value <= maxBits
  }

  predicate IsValidIpv4Range(s: string) {
    IsRange(s, 32) && IsValidIpv4(Split2(s, '/')[0])
  }

  predicate IsValidIpv6Range(s: string) {
    IsRange(s, 128) && IsValidIpv6(Split2(s, '/')[0])
  }

  predicate IsValidIpRange(s: string) {
    IsValidIpv4Range(s) || IsValidIpv6Range(s)
  }

  // ---------------------------------------------------------------- bytes

  /** A Kotlin `Byte` is signed. */
  type Byte = x: int | -128 <= x < 128

  function ToByte(x: int): Byte {
    (x + 128) % 256 - 128
  }

  function Unsigned(b: Byte): (u: nat)
    ensures u < 256 && ToByte(u) == b
  {
    if b >= 0 then b else b + 256
  }

  function GroupList(s: string): seq<string> {
    if s == "" then [] else Split(s, ':')
  }

  /** A gap takes two colons. */
  lemma GapColons(left: string, rest: string)
    ensures Count(left + "::" + rest, ':') == Count(left, ':') + 2 + Count(rest, ':')
  {
    hide Count;
    CountConcat(left + "::", rest, ':');
    CountConcat(left, "::", ':');
    TwoColons();
  }

  lemma TwoColons()
    ensures Count("::", ':') == 2
  {
    CountConcat(":", ":", ':');
  }

  lemma GroupCount(s: string)
    ensures |GroupList(s)| == (if s == "" then 0 else Count(s, ':') + 1)
  {
    CountParts(s, ':');
  }

  /** A valid address is eight groups, or at most six around one gap. */
  lemma ValidIpv6Shape(address: string)
    requires IsValidIpv6(address)
    ensures var parts := SplitGap(address);
            && |parts| <= 2
            && (forall i | 0 <= i < |parts| :: AreAllBytes(parts[i]))
            && (|parts| == 1 ==> |GroupList(parts[0])| == 8)
            && (|parts| == 2 ==> |GroupList(parts[0])| + |GroupList(parts[1])| <= 6)
  {
    hide AreAllBytes, Count, IndexOfGap, GroupList;
    var i := IndexOfGap(address);
    if address == "::" {
      Unspecified();
    } else if i < |address| {
      var rest := address[i + 2..];
      assert SplitGap(address) == [address[..i]] + SplitGap(rest);
      OnePart(rest);
      assert address == address[..i] + "::" + rest by { assert address[i..] == address[i..i + 2] + rest; }
      GapColons(address[..i], rest);
      GroupCount(address[..i]);
      GroupCount(rest);
    } else {
      GroupCount(address);
    }
  }

  lemma Unspecified()
    ensures SplitGap("::") == ["", ""] && AreAllBytes("") && GroupList("") == []
  {
    assert IndexOfGap("::") == 0;
    OnePart("");
    assert "::"[..0] == "" && "::"[2..] == "";
  }

  lemma OnePart(s: string)
    ensures |SplitGap(s)| == 1 ==> SplitGap(s) == [s]
    ensures s == "" ==> SplitGap(s) == [s]
  {
  }

  function GroupValues(s: string): (v: seq<nat>)
    requires AreAllBytes(s)
    ensures |v| == |GroupList(s)|
  {
    var g := GroupList(s);
    seq(|g|, i requires 0 <= i < |g| => Number(g[i], 16))
  }

  /** What section 2.2 of RFC 4291 says a valid address denotes: its eight 16-bit groups, the gap
      standing for as many zeros as are missing. */
  function Groups(address: string): (g: seq<nat>)
    requires IsValidIpv6(address)
    ensures |g| == 8
  {
    ValidIpv6Shape(address);
    var parts := SplitGap(address);
    var left := GroupValues(parts[0]);
    if |parts| == 1 then left
    else
      var right := GroupValues(parts[1]);
      left + seq(8 - |left| - |right|, _ => 0) + right
  }

  lemma {:induction false} HexGroupFits(g: string)
    requires AllDigits(g, 16) && |g| <= 4
    ensures Number(g, 16) < 0x1_0000
    ensures |g| <= 3 ==> Number(g, 16) < 0x1000
    ensures |g| <= 2 ==> Number(g, 16) < 0x100
    ensures |g| <= 1 ==> Number(g, 16) < 0x10
  {
    if g != "" { HexGroupFits(g[..|g| - 1]); }
  }

  lemma GroupsFit(address: string)
    requires IsValidIpv6(address)
    ensures forall i | 0 <= i < 8 :: Groups(address)[i] < 0x1_0000
  {
    ValidIpv6Shape(address);
    var parts := SplitGap(address);
    forall p, k | 0 <= p < |parts| && 0 <= k < |GroupList(parts[p])|
      ensures GroupValues(parts[p])[k] < 0x1_0000
    {
      HexGroupFits(GroupList(parts[p])[k]);
    }
  }

  function High(v: nat): Byte { ToByte(v / 256) }

  function Low(v: nat): Byte { ToByte(v % 256) }

  /** The two bytes of each group, high byte first. */
  function BytesOf(g: seq<nat>): seq<Byte> {
    if g == [] then [] else [High(g[0]), Low(g[0])] + BytesOf(g[1..])
  }

  /** `b` holds `v` at group `k`. */
  predicate Holds(b: seq<Byte>, k: nat, v: nat) {
    2 * k + 1 < |b| && b[2 * k] == High(v) && b[2 * k + 1] == Low(v)
  }

  lemma {:induction false} BytesOfHolds(g: seq<nat>, k: nat)
    requires k < |g|
    ensures |BytesOf(g)| == 2 * |g| && Holds(BytesOf(g), k, g[k])
    decreases |g|
  {
    if |g| > 1 {
      BytesOfHolds(g[1..], if k > 0 then k - 1 else 0);
    }
  }

  /** Holding every group leaves no freedom. */
  lemma {:induction false} HoldsAll(b: seq<Byte>, g: seq<nat>)
    requires |b| == 2 * |g| && forall k | 0 <= k < |g| :: Holds(b, k, g[k])
    ensures b == BytesOf(g)
  {
    if g != [] {
      assert Holds(b, 0, g[0]);
      forall k | 0 <= k < |g[1..]|
        ensures Holds(b[2..], k, g[1..][k])
      {
        assert Holds(b, k + 1, g[k + 1]);
      }
      HoldsAll(b[2..], g[1..]);
      assert b == [b[0], b[1]] + b[2..];
    }
  }

  method Ipv4ToBytes(ip: string) returns (r: array<Byte>)
    requires IsValidIpv4(ip)
    ensures fresh(r) && r.Length == 4
    ensures forall i | 0 <= i < 4 :: Unsigned(r[i]) == ToIntOrNull(Split(ip, '.')[i]).value
  {
    var parts := Split(ip, '.');
    r := new Byte[4](_ => 0);
    for i := 0 to 4
      invariant forall k | 0 <= k < i :: Unsigned(r[k]) == ToIntOrNull(parts[k]).value
    {
      assert IsValidOctet(parts[i]);
      r[i] := ToByte(ToIntOrNull(parts[i]).value);
    }
  }

  /** Writes the two bytes of one group; the shift and the mask of the source are `/` and `%` here. */
  method PutGroup(result: array<Byte>, i: nat, text: string)
    requires 2 * i + 1 < result.Length && IsHexGroup(text)
    modifies result
    ensures Holds(result[..], i, Number(text, 16))
    ensures forall k: nat, v: nat | k != i :: old(Holds(result[..], k, v)) ==> Holds(result[..], k, v)
  {
    hide ToByte;
    var twoBytes := Number(text, 16);
    result[i * 2] := ToByte(twoBytes / 256);
    result[i * 2 + 1] := ToByte(twoBytes % 256);
  }

  /** `ipv6ToBytes`: every write is in bounds, the groups left and right of the gap never meet, and the
      result is the address read by section 2.2 of RFC 4291. */
  method Ipv6ToBytes(ip: string) returns (result: array<Byte>)
    requires IsValidIpv6(ip)
    ensures fresh(result) && result[..] == BytesOf(Groups(ip))
  {
    hide SplitGap, Holds, GroupList, IsValidIpv6;
    ValidIpv6Shape(ip);
    ghost var g := Groups(ip);
    var parts := SplitGap(ip);
    result := new Byte[16](_ => 0);
    forall k | 0 <= k < 8 ensures Holds(result[..], k, 0) { ZeroHolds(result[..], k); }
    var left := GroupList(parts[0]);
    var i := 0;
    while i < |left|
      invariant 0 <= i <= |left|
      invariant forall k | 0 <= k < i :: Holds(result[..], k, g[k])
      invariant forall k | i <= k < 8 :: Holds(result[..], k, 0)
    {
      GroupTexts(parts[0], i);
      PutGroup(result, i, left[i]);
      i := i + 1;
    }
    if |parts| > 1 {
      var right := GroupList(parts[1]);
      var j := 1;
      while j <= |right|
        invariant 1 <= j <= |right| + 1
        invariant forall k | 0 <= k < |left| :: Holds(result[..], k, g[k])
        invariant forall k | 9 - j <= k < 8 :: Holds(result[..], k, g[k])
        invariant forall k | |left| <= k < 9 - j :: Holds(result[..], k, 0)
      {
        GroupTexts(parts[1], |right| - j);
        assert g[8 - j] == GroupValues(parts[1])[|right| - j];
        PutGroup(result, 8 - j, right[|right| - j]);
        j := j + 1;
      }
    }
    HoldsAll(result[..], g);
  }

  lemma ZeroHolds(b: seq<Byte>, k: nat)
    requires 2 * k + 1 < |b| && b[2 * k] == 0 && b[2 * k + 1] == 0
    ensures Holds(b, k, 0)
  {
  }

  lemma GroupTexts(s: string, i: nat)
    requires AreAllBytes(s) && i < |GroupList(s)|
    ensures IsHexGroup(GroupList(s)[i]) && GroupValues(s)[i] == Number(GroupList(s)[i], 16)
  {
  }

  /** Two spellings give the same 16 bytes exactly if they denote the same groups. */
  lemma SameAddressSameBytes(a: string, b: string)
    requires IsValidIpv6(a) && IsValidIpv6(b)
    ensures BytesOf(Groups(a)) == BytesOf(Groups(b)) <==> Groups(a) == Groups(b)
  {
    hide IsValidIpv6, Groups, BytesOf;
    GroupsFit(a);
    GroupsFit(b);
    var x, y := Groups(a), Groups(b);
    if BytesOf(x) == BytesOf(y) {
      forall i | 0 <= i < 8
        ensures x[i] == y[i]
      {
        BytesOfHolds(x, i);
        BytesOfHolds(y, i);
        SameHalves(x[i], y[i]);
      }
    }
  }

  lemma ByteKept(x: nat)
    requires x < 256
    ensures Unsigned(ToByte(x)) == x
  {
  }

  lemma SameHalves(v: nat, w: nat)
    requires v < 0x1_0000 && w < 0x1_0000 && High(v) == High(w) && Low(v) == Low(w)
    ensures v == w
  {
    hide ToByte, Unsigned;
    ByteKept(v / 256);
    ByteKept(v % 256);
    ByteKept(w / 256);
    ByteKept(w % 256);
  }

  // ---------------------------------------------------------------- ranges

  /** The big-endian number that bytes stand for. */
  function Value(b: seq<Byte>): nat {
    if b == [] then 0 else 256 * Value(b[..|b| - 1]) + Unsigned(b[|b| - 1])
  }

  /** `v` without its low `n` bits. */
  function Shr(v: nat, n: nat): nat {
    if n == 0 then v else Shr(v / 2, n - 1)
  }

  /** `x and (0xff shl shift)` on 32-bit integers: bits `shift` to `shift + 7` of the sign-extended byte. */
  function AndMask(x: Byte, shift: nat): int {
    (x / Pow2(shift)) % 256 * Pow2(shift)
  }

  predicate SamePrefix(a: seq<Byte>, b: seq<Byte>, mask: nat)
    requires |a| == |b| && mask <= 8 * |a|
  {
    && a[..mask / 8] == b[..mask / 8]
    && (mask % 8 == 0 || AndMask(a[mask / 8], 8 - mask % 8) == AndMask(b[mask / 8], 8 - mask % 8))
  }

  lemma {:induction false} ValueInjective(a: seq<Byte>, b: seq<Byte>)
    requires |a| == |b|
    ensures Value(a) == Value(b) <==> a == b
  {
    if a != [] {
      ValueInjective(a[..|a| - 1], b[..|b| - 1]);
      assert a == a[..|a| - 1] + [a[|a| - 1]] && b == b[..|b| - 1] + [b[|b| - 1]];
    }
  }

  lemma ShrHalfByte(v: nat, n: nat)
    ensures Shr(v, n + 4) == Shr(v / 16, n)
  {
    assert Shr(v, n + 4) == Shr(v / 2, n + 3) == Shr(v / 4, n + 2) == Shr(v / 8, n + 1) == Shr(v / 16, n);
  }

  lemma ShrByte(v: nat, n: nat)
    ensures Shr(v, n + 8) == Shr(v / 256, n)
  {
    hide Shr;
    ShrHalfByte(v, n + 4);
    ShrHalfByte(v / 16, n);
  }

  /** `p` is 2 to the power of the shift and `p * q == 256`. */
  lemma MaskedQuotient(x: Byte, p: int, q: int)
    requires (p, q) in {(2, 128), (4, 64), (8, 32), (16, 16), (32, 8), (64, 4), (128, 2)}
    ensures (x / p) % 256 == if x >= 0 then Unsigned(x) / p else Unsigned(x) / p + 256 - q
    ensures if x >= 0 then Unsigned(x) / p < q / 2 else q / 2 <= Unsigned(x) / p < q
  {
    hide ToByte;
    if p == 2 {
    } else if p == 4 {
    } else if p == 8 {
    } else if p == 16 {
    } else if p == 32 {
    } else if p == 64 {
    } else {
    }
  }

  lemma SmallPowers()
    ensures Pow2(1) == 2 && Pow2(2) == 4 && Pow2(3) == 8 && Pow2(4) == 16
    ensures Pow2(5) == 32 && Pow2(6) == 64 && Pow2(7) == 128
  {
    assert Pow2(3) == 2 * Pow2(2);
    assert Pow2(5) == 2 * Pow2(4);
    assert Pow2(7) == 2 * Pow2(6);
  }

  lemma Shr2(v: nat)
    ensures Shr(v, 1) == v / 2 && Shr(v, 2) == v / 4
  {
    assert Shr(v, 1) == Shr(v / 2, 0);
    assert Shr(v, 2) == Shr(v / 2, 1) == Shr(v / 4, 0);
  }

  lemma Shr4(v: nat)
    ensures Shr(v, 3) == v / 8 && Shr(v, 4) == v / 16
  {
    Shr2(v / 2);
    Shr2(v / 4);
    assert Shr(v, 3) == Shr(v / 2, 2);
    assert Shr(v, 4) == Shr(v / 2, 3) == Shr(v / 4, 2);
  }

  lemma Shr7(v: nat)
    ensures Shr(v, 5) == v / 32 && Shr(v, 6) == v / 64 && Shr(v, 7) == v / 128
  {
    Shr4(v / 2);
    Shr4(v / 4);
    Shr4(v / 8);
    assert Shr(v, 5) == Shr(v / 2, 4);
    assert Shr(v, 6) == Shr(v / 2, 5) == Shr(v / 4, 4);
    assert Shr(v, 7) == Shr(v / 2, 6) == Shr(v / 4, 5) == Shr(v / 8, 4);
  }

  /** For the seven shifts, `Pow2` and `Shr` are literal divisions. */
  lemma ShrSmall(v: nat, shift: nat, p: int)
    requires (shift, p) in {(1, 2), (2, 4), (3, 8), (4, 16), (5, 32), (6, 64), (7, 128)}
    ensures Shr(v, shift) == v / p && Pow2(shift) == p
  {
    hide Shr, Pow2;
    Shr2(v);
    Shr4(v);
    Shr7(v);
    SmallPowers();
  }

  function PowerOf(shift: nat): int
    requires 1 <= shift < 8
  {
    [2, 4, 8, 16, 32, 64, 128][shift - 1]
  }

  lemma MaskedCase(x: Byte, y: Byte, p: int, q: int)
    requires (p, q) in {(2, 128), (4, 64), (8, 32), (16, 16), (32, 8), (64, 4), (128, 2)}
    ensures (x / p) % 256 * p == (y / p) % 256 * p <==> Unsigned(x) / p == Unsigned(y) / p
  {
    hide Unsigned;
    MaskedQuotient(x, p, q);
    MaskedQuotient(y, p, q);
    var c, d := (x / p) % 256, (y / p) % 256;
    assert c * p == d * p <==> c == d;
  }

  /** The masked signed comparison looks at exactly the top `8 - shift` bits of the byte. */
  lemma MaskedByte(x: Byte, y: Byte, shift: nat)
    requires 1 <= shift < 8
    ensures AndMask(x, shift) == AndMask(y, shift) <==> Shr(Unsigned(x), shift) == Shr(Unsigned(y), shift)
  {
    hide Unsigned, Shr, Pow2;
    var p := PowerOf(shift);
    ShrSmall(Unsigned(x), shift, p);
    ShrSmall(Unsigned(y), shift, p);
    MaskedCase(x, y, p, 256 / p);
  }

  lemma CutCase(u: nat, x: nat, p: int, q: int)
    requires (p, q) in {(2, 128), (4, 64), (8, 32), (16, 16), (32, 8), (64, 4), (128, 2)}
    requires x < 256
    ensures (256 * u + x) / p == q * u + x / p && x / p < q
  {
  }

  lemma DigitsUnique(u: nat, v: nat, a: nat, b: nat, q: nat)
    requires q in {128, 64, 32, 16, 8, 4, 2} && a < q && b < q
    ensures q * u + a == q * v + b <==> u == v && a == b
  {
  }

  /** A cut inside the last byte keeps all bytes before it and the top bits of that byte. */
  lemma CutInByte(u: nat, v: nat, x: nat, y: nat, shift: nat)
    requires 1 <= shift < 8 && x < 256 && y < 256
    ensures Shr(256 * u + x, shift) == Shr(256 * v + y, shift) <==> u == v && Shr(x, shift) == Shr(y, shift)
  {
    hide Shr, Pow2;
    var p := PowerOf(shift);
    var q := 256 / p;
    ShrSmall(256 * u + x, shift, p);
    ShrSmall(256 * v + y, shift, p);
    ShrSmall(x, shift, p);
    ShrSmall(y, shift, p);
    CutCase(u, x, p, q);
    CutCase(v, y, p, q);
    DigitsUnique(u, v, x / p, y / p, q);
  }

  /** The byte-and-mask loop decides equality of the top `mask` bits of the two big-endian numbers. */
  lemma {:induction false} SamePrefixIsTopBits(a: seq<Byte>, b: seq<Byte>, mask: nat)
    requires |a| == |b| && mask <= 8 * |a|
    ensures SamePrefix(a, b, mask) <==> Shr(Value(a), 8 * |a| - mask) == Shr(Value(b), 8 * |a| - mask)
    decreases |a|
  {
    hide AndMask, Shr, Unsigned;
    var r := 8 * |a| - mask;
    if a == [] {
    } else if r >= 8 {
      var m := |a| - 1;
      ShrByte(Value(a), r - 8);
      ShrByte(Value(b), r - 8);
      SamePrefixIsTopBits(a[..m], b[..m], mask);
      PrefixOfInit(a, b, mask);
    } else if r == 0 {
      ValueInjective(a, b);
      assert a[..mask / 8] == a && b[..mask / 8] == b;
      ShrZero(Value(a));
      ShrZero(Value(b));
    } else {
      var m := |a| - 1;
      assert mask / 8 == m && 8 - mask % 8 == r;
      ValueInjective(a[..m], b[..m]);
      CutInByte(Value(a[..m]), Value(b[..m]), Unsigned(a[m]), Unsigned(b[m]), r);
      MaskedByte(a[m], b[m], r);
    }
  }

  /** A prefix that ends before the last byte does not see it. */
  lemma PrefixOfInit(a: seq<Byte>, b: seq<Byte>, mask: nat)
    requires |a| == |b| && a != [] && mask <= 8 * (|a| - 1)
    ensures SamePrefix(a, b, mask) <==> SamePrefix(a[..|a| - 1], b[..|a| - 1], mask)
  {
    hide AndMask;
    var m, n := |a| - 1, mask / 8;
    assert n <= m;
    assert a[..m][..n] == a[..n] && b[..m][..n] == b[..n];
    if mask % 8 != 0 { assert n < m && a[..m][n] == a[n] && b[..m][n] == b[n]; }
  }

  lemma ShrZero(v: nat)
    ensures Shr(v, 0) == v
  {
  }

  /** The loop shared by `isIpv4InRange` and `isIpv6InRange`. */
  method ComparePrefix(ipBytes: array<Byte>, rangeBytes: array<Byte>, mask: nat) returns (r: bool)
    requires ipBytes.Length == rangeBytes.Length && mask <= 8 * ipBytes.Length
    ensures r <==> SamePrefix(ipBytes[..], rangeBytes[..], mask)
  {
    hide AndMask;
    var maskBytes := mask / 8;
    for i := 0 to maskBytes
      invariant forall k | 0 <= k < i :: ipBytes[k] == rangeBytes[k]
    {
      if ipBytes[i] != rangeBytes[i] {
        assert ipBytes[..][..maskBytes][i] != rangeBytes[..][..maskBytes][i];
        return false;
      }
    }
    assert ipBytes[..][..maskBytes] == rangeBytes[..][..maskBytes];
    if mask % 8 == 0 {
      return true;
    }
    return AndMask(ipBytes[maskBytes], 8 - mask % 8) == AndMask(rangeBytes[maskBytes], 8 - mask % 8);
  }

  /** The 32-bit number a dotted quad denotes. */
  function Ipv4Number(ip: string): nat
    requires IsValidIpv4(ip)
  {
    var p := Split(ip, '.');
    assert forall i | 0 <= i < 4 :: IsValidOctet(p[i]);
    ((ToIntOrNull(p[0]).value * 256 + ToIntOrNull(p[1]).value) * 256 + ToIntOrNull(p[2]).value) * 256
    + ToIntOrNull(p[3]).value
  }

  /** The 128-bit number of eight groups. */
  function GroupsNumber(g: seq<nat>): nat {
    if g == [] then 0 else 0x1_0000 * GroupsNumber(g[..|g| - 1]) + g[|g| - 1]
  }

  lemma {:induction false} BytesOfAppend(g: seq<nat>, v: nat)
    ensures BytesOf(g + [v]) == BytesOf(g) + [High(v), Low(v)]
  {
    hide High, Low;
    if g == [] {
      assert g + [v] == [v];
      assert BytesOf([v]) == [High(v), Low(v)] + BytesOf([v][1..]);
    } else {
      BytesOfAppend(g[1..], v);
      assert (g + [v])[1..] == g[1..] + [v];
    }
  }

  lemma ValueAppend(b: seq<Byte>, x: Byte)
    ensures Value(b + [x]) == 256 * Value(b) + Unsigned(x)
  {
    assert (b + [x])[..|b|] == b;
  }

  lemma HalvesRejoin(v: nat)
    requires v < 0x1_0000
    ensures Unsigned(High(v)) * 256 + Unsigned(Low(v)) == v
  {
  }

  lemma {:induction false} BytesOfValue(g: seq<nat>)
    requires forall i | 0 <= i < |g| :: g[i] < 0x1_0000
    ensures Value(BytesOf(g)) == GroupsNumber(g)
  {
    hide High, Low, Unsigned;
    if g != [] {
      var m := |g| - 1;
      BytesOfValue(g[..m]);
      BytesOfAppend(g[..m], g[m]);
      assert g[..m] + [g[m]] == g;
      HalvesRejoin(g[m]);
      ValueAppend(BytesOf(g[..m]), High(g[m]));
      ValueAppend(BytesOf(g[..m]) + [High(g[m])], Low(g[m]));
      assert BytesOf(g) == BytesOf(g[..m]) + [High(g[m])] + [Low(g[m])];
    }
  }

  lemma Value4(b: seq<Byte>)
    requires |b| == 4
    ensures Value(b) == ((Unsigned(b[0]) * 256 + Unsigned(b[1])) * 256 + Unsigned(b[2])) * 256 + Unsigned(b[3])
  {
    hide Unsigned;
    assert b == [] + [b[0]] + [b[1]] + [b[2]] + [b[3]];
    ValueAppend([], b[0]);
    ValueAppend([] + [b[0]], b[1]);
    ValueAppend([] + [b[0]] + [b[1]], b[2]);
    ValueAppend([] + [b[0]] + [b[1]] + [b[2]], b[3]);
  }

  lemma QuadValue(ip: string, b: seq<Byte>)
    requires IsValidIpv4(ip) && |b| == 4
    requires forall i | 0 <= i < 4 :: Unsigned(b[i]) == ToIntOrNull(Split(ip, '.')[i]).value
    ensures Value(b) == Ipv4Number(ip)
  {
    hide Unsigned, Value;
    Value4(b);
  }

  function MaskOf(range: string): nat
    requires IsValidIpRange(range)
  {
    ToIntOrNull(Split2(range, '/')[1]).value
  }

  /** Section 3.1 of RFC 4632: an address is in a range when their top `mask` bits agree. */
  predicate InRange(ip: string, range: string) {
    || (IsValidIpv4(ip) && IsValidIpv4Range(range)
        && Shr(Ipv4Number(ip), 32 - MaskOf(range)) == Shr(Ipv4Number(Split2(range, '/')[0]), 32 - MaskOf(range)))
    || (!(IsValidIpv4(ip) && IsValidIpv4Range(range)) && IsValidIpv6(ip) && IsValidIpv6Range(range)
        && Shr(GroupsNumber(Groups(ip)), 128 - MaskOf(range))
           == Shr(GroupsNumber(Groups(Split2(range, '/')[0])), 128 - MaskOf(range)))
  }

  method IsIpv4InRange(ip: string, range: string) returns (r: bool)
    requires IsValidIpv4(ip) && IsValidIpv4Range(range)
    ensures r <==> Shr(Ipv4Number(ip), 32 - MaskOf(range)) == Shr(Ipv4Number(Split2(range, '/')[0]), 32 - MaskOf(range))
  {
    hide Shr, IsValidIpv4, SamePrefix, Value, Unsigned, Ipv4Number;
    var parts := Split2(range, '/');
    var mask := ToIntOrNull(parts[1]).value;
    var ipBytes := Ipv4ToBytes(ip);
    var rangeBytes := Ipv4ToBytes(parts[0]);
    r := ComparePrefix(ipBytes, rangeBytes, mask);
    SamePrefixIsTopBits(ipBytes[..], rangeBytes[..], mask);
    QuadValue(ip, ipBytes[..]);
    QuadValue(parts[0], rangeBytes[..]);
  }

  method IsIpv6InRange(ip: string, range: string) returns (r: bool)
    requires IsValidIpv6(ip) && IsValidIpv6Range(range)
    ensures r <==> Shr(GroupsNumber(Groups(ip)), 128 - MaskOf(range))
                   == Shr(GroupsNumber(Groups(Split2(range, '/')[0])), 128 - MaskOf(range))
  {
    hide Shr, IsValidIpv6, SamePrefix, Groups;
    var parts := Split2(range, '/');
    var mask := ToIntOrNull(parts[1]).value;
    var ipBytes := Ipv6ToBytes(ip);
    var rangeBytes := Ipv6ToBytes(parts[0]);
    BytesOfHolds(Groups(ip), 0);
    BytesOfHolds(Groups(parts[0]), 0);
    r := ComparePrefix(ipBytes, rangeBytes, mask);
    SamePrefixIsTopBits(ipBytes[..], rangeBytes[..], mask);
    GroupsFit(ip);
    GroupsFit(parts[0]);
    BytesOfValue(Groups(ip));
    BytesOfValue(Groups(parts[0]));
  }

  /** `isIpInRange`, for all texts. */
  method IsIpInRange(ip: string, range: string) returns (r: bool)
    ensures r <==> InRange(ip, range)
  {
    hide IsValidIpv4, IsValidIpv6, Shr, Groups;
    if IsValidIpv4(ip) && IsValidIpv4Range(range) {
      r := IsIpv4InRange(ip, range);
    } else if IsValidIpv6(ip) && IsValidIpv6Range(range) {
      r := IsIpv6InRange(ip, range);
    } else {
      r := false;
    }
  }
}
