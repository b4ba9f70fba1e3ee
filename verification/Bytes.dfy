/** Numbers as bytes in memory and on the wire. */
module Bytes {
  import opened Serial

  function Word(low: u8, high: u8): u16 {
    256 * (high as int) + low
  }

  /** `htons`, as it lies in memory. */
  function Net16(x: u16): (b: seq<u8>)
    ensures |b| == 2
  {
    [x / 256, x % 256]
  }

  lemma Net16Reads(x: u16)
    ensures Read16(Net16(x)) == x
  {
  }

  function Read16(b: seq<u8>): u16
    requires |b| == 2
  {
    Word(b[1], b[0])
  }

  /** `htonl`, as it lies in memory. */
  function Net32(x: u32): (b: seq<u8>)
    ensures |b| == 4
  {
    Net16(x / 0x1_0000) + Net16(x % 0x1_0000)
  }

  lemma Net32Reads(x: u32)
    ensures Read32(Net32(x)) == x
  {
    Net16Reads(x / 0x1_0000);
    Net16Reads(x % 0x1_0000);
  }

  function Read32(b: seq<u8>): u32
    requires |b| == 4
  {
    0x1_0000 * (Word(b[1], b[0]) as int) + Word(b[3], b[2])
  }

  /** A 16-bit field assigned without `htons`, on a little-endian CPU. */
  function Host16(x: u16): (b: seq<u8>)
    ensures |b| == 2
  {
    [x % 256, x / 256]
  }

  /** `ntohs` of the two bytes at `i`. */
  function WordAt(b: seq<u8>, i: nat): u16
    requires i + 2 <= |b|
  {
    Read16(b[i..i + 2])
  }

  /** `ntohl` of the four bytes at `i`. */
  function LongAt(b: seq<u8>, i: nat): u32
    requires i + 4 <= |b|
  {
    Read32(b[i..i + 4])
  }
}
