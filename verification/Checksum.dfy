/** util.c and tcp.c: the Internet checksum (section 1 of RFC 1071) and the packets sealed with it. */
module Checksum {
  import opened Serial
  import opened Bytes

  // ---------------------------------------------------------------- sums of 16-bit words

  /** The words as a little-endian CPU loads them; a byte left over is the low half of a word. */
  function HostSum(b: seq<u8>): nat {
    if b == [] then 0
    else if |b| == 1 then b[0]
    else Word(b[0], b[1]) + HostSum(b[2..])
  }

  /** The words in network byte order, a byte left over padded on the right: what the RFCs add up. */
  function NetSum(b: seq<u8>): nat {
    if b == [] then 0
    else if |b| == 1 then 256 * b[0]
    else Word(b[1], b[0]) + NetSum(b[2..])
  }

  /** A one's complement sum in 16 bits: zero only for zero. */
  function Norm(sum: nat): (r: u16)
  {
    if sum == 0 then 0 else (sum - 1) % 65535 + 1
  }

  lemma {:induction false} HostSumConcat(a: seq<u8>, b: seq<u8>)
    requires |a| % 2 == 0
    ensures HostSum(a + b) == HostSum(a) + HostSum(b)
  {
    if a == [] {
      assert a + b == b;
    } else {
      assert (a + b)[2..] == a[2..] + b;
      HostSumConcat(a[2..], b);
    }
  }

  lemma {:induction false} HostSumBound(b: seq<u8>)
    ensures HostSum(b) <= 65535 * ((|b| + 1) / 2)
  {
    if |b| >= 2 { HostSumBound(b[2..]); }
  }

  function EvenBytes(b: seq<u8>): nat {
    if b == [] then 0 else if |b| == 1 then b[0] else b[0] + EvenBytes(b[2..])
  }

  /** Swapping the bytes of every word multiplies the sum by 256, modulo 65535. */
  lemma {:induction false} ByteOrder(b: seq<u8>)
    ensures 256 * NetSum(b) == HostSum(b) + 65535 * EvenBytes(b)
  {
    if |b| >= 2 { ByteOrder(b[2..]); }
  }

  // ---------------------------------------------------------------- congruence modulo 65535

  lemma NormUnique(sum: nat, k: int, r: nat)
    requires 0 < sum == 65535 * k + r && 1 <= r <= 65535
    ensures Norm(sum) == r
  {
    var m := sum - 1;
    assert m == 65535 * k + (r - 1);
  }

  lemma NormSplit(sum: nat) returns (k: nat)
    ensures sum == 65535 * k + Norm(sum)
    ensures sum > 0 ==> Norm(sum) >= 1
  {
    k := if sum == 0 then 0 else (sum - 1) / 65535;
  }

  /** Adding to a sum or to its normal form is the same. */
  lemma NormChains(a: nat, b: nat)
    ensures Norm(Norm(a) + b) == Norm(a + b)
  {
    hide Norm;
    var k := NormSplit(a);
    var l := NormSplit(Norm(a) + b);
    if Norm(a) + b == 0 {
    } else {
      NormUnique(a + b, k + l, Norm(Norm(a) + b));
    }
  }

  /** One turn of `while (sum >> 16)`. */
  lemma FoldKeepsNorm(sum: nat)
    requires sum >= 0x1_0000
    ensures var s := sum % 0x1_0000 + sum / 0x1_0000; 0 < s < sum && Norm(s) == Norm(sum)
  {
    var q, r := sum / 0x1_0000, sum % 0x1_0000;
    assert sum == 65535 * q + (q + r);
    hide Norm;
    var k := NormSplit(q + r);
    NormUnique(sum, q + k, Norm(q + r));
  }

  lemma NormSmall(sum: nat)
    requires sum < 0x1_0000
    ensures Norm(sum) == sum
  {
  }

  /** A sum completed with its complement verifies. */
  lemma Sealed(sum: nat)
    ensures Norm(sum + (65535 - Norm(sum))) == 65535
  {
    hide Norm;
    var k := NormSplit(sum);
    NormUnique(sum + (65535 - Norm(sum)), k, 65535);
  }

  /** A sum verifies in one byte order if and only if it does in the other. */
  lemma VerifiesInNetworkOrder(b: seq<u8>)
    requires NetSum(b) > 0 && Norm(HostSum(b)) == 65535
    ensures Norm(NetSum(b)) == 65535
  {
    hide Norm, NetSum, HostSum, EvenBytes;
    ByteOrder(b);
    var k := NormSplit(HostSum(b));
    var n := NetSum(b);
    assert n == 65535 * (256 * (k + 1 + EvenBytes(b)) - n - 1) + 65535;
    NormUnique(n, 256 * (k + 1 + EvenBytes(b)) - n - 1, 65535);
  }

  // ---------------------------------------------------------------- the loop

  /** `calc_checksum`: for every buffer the accumulator has room for, the normal form of the sum. */
  method CalcChecksum(start: u16, buffer: seq<u8>) returns (r: u16)
    ensures |buffer| <= 131072 ==> r == Norm(start + HostSum(buffer))
  {
    hide Norm, HostSum;
    var sum: u32 := start;
    var buf, len := 0, |buffer|;
    assert buffer[..0] == [];
    HostSumEmpty();
    while len > 1
      invariant buf + len == |buffer| && buf % 2 == 0
      invariant len >= 0
      invariant |buffer| <= 131072 ==> sum == start + HostSum(buffer[..buf])
    {
      TwoBytes(buffer, buf);
      HostSumBound(buffer[..buf + 2]);
      sum := U32(sum + Word(buffer[buf], buffer[buf + 1]));
      buf := buf + 2;
      len := len - 2;
    }
    if len > 0 {
      OneByte(buffer, buf);
      HostSumBound(buffer);
      sum := U32(sum + buffer[buf]);
    } else {
      assert buffer[..buf] == buffer;
    }
    ghost var whole: nat := sum;
    while sum / 0x1_0000 != 0
      invariant Norm(sum) == Norm(whole)
      decreases sum
    {
      FoldKeepsNorm(sum);
      sum := sum % 0x1_0000 + sum / 0x1_0000;
    }
    NormSmall(sum);
    r := sum;
  }

  lemma HostSumEmpty()
    ensures HostSum([]) == 0
  {
  }

  lemma TwoBytes(b: seq<u8>, i: nat)
    requires i % 2 == 0 && i + 2 <= |b|
    ensures HostSum(b[..i + 2]) == HostSum(b[..i]) + Word(b[i], b[i + 1])
  {
    assert b[..i + 2] == b[..i] + [b[i], b[i + 1]];
    HostSumConcat(b[..i], [b[i], b[i + 1]]);
  }

  lemma OneByte(b: seq<u8>, i: nat)
    requires i % 2 == 0 && i + 1 == |b|
    ensures HostSum(b) == HostSum(b[..i]) + b[i]
  {
    assert b == b[..i] + [b[i]];
    HostSumConcat(b[..i], [b[i]]);
  }

  /** Continuing the checksum of an even piece is the checksum of the pieces joined. */
  lemma ChainedChecksum(start: u16, a: seq<u8>, b: seq<u8>)
    requires |a| % 2 == 0
    ensures Norm(Norm(start + HostSum(a)) + HostSum(b)) == Norm(start + HostSum(a + b))
  {
    HostSumConcat(a, b);
    NormChains(start + HostSum(a), HostSum(b));
  }
}
