/** `get_qname` of dns.c: domain names in DNS messages, sections 3.1 and 4.1.4 of RFC 1035. */
module DnsName {
  import opened Serial

  const DNS_QNAME_MAX := 255
  const DOT: u8 := 0x2e

  function U16(x: nat): (r: u16)
    ensures r <= x
  {
    x % 0x1_0000
  }

  // ---------------------------------------------------------------- the walk

  /** Where a compression pointer leads. */
  function Target(high: u8, low: u8): u16 {
    (high as int) % 0x40 * 256 + low
  }

  /** How the loop ends: given up, or at the zero byte at `ptr`, a pointer taken or not. */
  datatype End = Stopped | Ended(name: seq<u8>, ptr: nat, jumped: bool)

  /** The part of the output buffer in use after a label and its dot; `noff` has eight bits. */
  function Append(name: seq<u8>, part: seq<u8>): (r: seq<u8>)
    requires |name| + |part| <= DNS_QNAME_MAX
    ensures |r| <= DNS_QNAME_MAX
  {
    if |name| + |part| + 1 == 256 then [] else name + part + [DOT]
  }

  lemma AppendWraps(name: seq<u8>, part: seq<u8>)
    requires |name| + |part| <= DNS_QNAME_MAX
    ensures Append(name, part) == (name + part + [DOT])[..(|name| + |part| + 1) % 256]
  {
  }

  /** The loop of `get_qname` from an item on, `count` items having been decoded. */
  function Walk(data: seq<u8>, ptr: nat, name: seq<u8>, count: nat, jumped: bool): (r: End)
    requires ptr < |data| && |name| <= DNS_QNAME_MAX && count <= 26
    ensures r.Ended? ==> |r.name| <= DNS_QNAME_MAX && r.ptr < |data| && (jumped ==> r.jumped)
    decreases 26 - count
  {
    var len := data[ptr];
    if len == 0 then Ended(name, ptr, jumped)
    else if count == 26 then Stopped
    else if ptr + 1 < |data| && len >= 0x40 then
      var jump := Target(len, data[ptr + 1]);
      if jump >= |data| then Stopped else Walk(data, jump, name, count + 1, true)
    else if ptr + 1 + len < |data| && |name| + len <= DNS_QNAME_MAX then
      Walk(data, U16(ptr + 1 + len), Append(name, data[ptr + 1..ptr + 1 + len]), count + 1, jumped)
    else Stopped
  }

  lemma WalkEnds(data: seq<u8>, p: nat, name: seq<u8>, count: nat, jumped: bool)
    requires p < |data| && |name| <= DNS_QNAME_MAX && count <= 26
    ensures data[p] == 0 ==> Walk(data, p, name, count, jumped) == Ended(name, p, jumped)
    ensures data[p] != 0 && count == 26 ==> Walk(data, p, name, count, jumped) == Stopped
  {
  }

  predicate AtPointer(data: seq<u8>, p: nat) {
    p + 1 < |data| && data[p] >= 0x40
  }

  lemma WalkPointer(data: seq<u8>, p: nat, name: seq<u8>, count: nat, jumped: bool)
    requires AtPointer(data, p) && |name| <= DNS_QNAME_MAX && count < 26
    ensures var t := Target(data[p], data[p + 1]);
            Walk(data, p, name, count, jumped) == if t < |data| then Walk(data, t, name, count + 1, true) else Stopped
  {
    hide Append, U16, Target;
  }

  lemma WalkLabel(data: seq<u8>, p: nat, name: seq<u8>, count: nat, jumped: bool)
    requires p < |data| && !AtPointer(data, p) && 0 < data[p] && |name| <= DNS_QNAME_MAX && count < 26
    ensures Walk(data, p, name, count, jumped)
            == if p + 1 + data[p] < |data| && |name| + data[p] <= DNS_QNAME_MAX then
                 Walk(data, U16(p + 1 + data[p]), Append(name, data[p + 1..p + 1 + data[p]]), count + 1, jumped)
               else Stopped
  {
    hide Append, Target;
  }

  lemma U16Small(x: nat)
    requires x < 0x1_0000
    ensures U16(x) == x
  {
  }

  /** The C string left in the buffer and the offset returned; `NoName` where -1 is returned. */
  datatype Found = NoName | Found(name: seq<u8>, next: u16)

  function GetName(data: seq<u8>, off: u16): Found {
    if off >= |data| then NoName
    else
      match Walk(data, off, [], 0, false)
      case Stopped => NoName
      case Ended(name, ptr, jumped) =>
        if name == [] then NoName
        else Found(name[..|name| - 1], U16(if jumped then off + 2 else ptr + 1))
  }

  /** The label and its dot go behind what is in the buffer. */
  method CopyLabel(part: seq<u8>, qname: array<u8>, noff: nat)
    requires qname.Length == DNS_QNAME_MAX + 1 && noff + |part| <= DNS_QNAME_MAX
    modifies qname
    ensures qname[..(noff + |part| + 1) % 256] == Append(old(qname[..noff]), part)
  {
    forall i | 0 <= i < |part| {
      qname[noff + i] := part[i];
    }
    qname[noff + |part|] := DOT;
    assert qname[..noff + |part| + 1] == old(qname[..noff]) + part + [DOT];
    AppendWraps(old(qname[..noff]), part);
  }

  /** `get_qname`.  Every read is within `data` and every write within the buffer, for all contents. */
  method GetQname(data: seq<u8>, off: u16, qname: array<u8>) returns (r: int)
    requires qname.Length == DNS_QNAME_MAX + 1
    modifies qname
    ensures match GetName(data, off)
            case NoName => r == -1
            case Found(name, next) => r == next && |name| < 255 && qname[..|name|] == name && qname[|name|] == 0
  {
    hide Walk, Append, U16, Target;
    qname[0] := 0;
    if off >= |data| {
      return -1;
    }
    var start := off;
    var c := false;
    var noff: u8 := 0;
    var ptr: u16 := off;
    var len: u8 := data[ptr];
    var count := 0;
    assert qname[..noff] == [];
    while len != 0
      invariant ptr < |data| && len == data[ptr] && count <= 26
      invariant start == if c then U16(off + 2) else off
      invariant Walk(data, off, [], 0, false) == Walk(data, ptr, qname[..noff], count, c)
      decreases 26 - count
    {
      if count > 25 {
        WalkEnds(data, ptr, qname[..noff], count, c);
        break;
      }
      ghost var name := qname[..noff];
      if ptr + 1 < |data| && len >= 0x40 {
        WalkPointer(data, ptr, name, count, c);
        var jump := Target(len, data[ptr + 1]);
        if jump >= |data| {
          break;
        }
        ptr := jump;
        len := data[ptr];
        if !c {
          c := true;
          start := U16(start + 2);
        }
      } else if ptr + 1 + len < |data| && noff + len <= DNS_QNAME_MAX {
        WalkLabel(data, ptr, name, count, c);
        CopyLabel(data[ptr + 1..ptr + 1 + len], qname, noff);
        noff := (noff + len + 1) % 256;
        ptr := U16(ptr + 1 + len);
        len := data[ptr];
      } else {
        WalkLabel(data, ptr, name, count, c);
        break;
      }
      count := count + 1;
    }
    WalkEnds(data, ptr, qname[..noff], count, c);
    if len > 0 || noff == 0 {
      return -1;
    }
    qname[noff - 1] := 0;
    return if c then start else U16(ptr + 1);
  }

  // ---------------------------------------------------------------- what a name is

  /** Section 4.1.4 of RFC 1035: `items` labels and pointers from `p` on spell `labels` and end with the
      root; lengths with the top bits 01 and 10 are reserved. */
  ghost predicate Denotes(data: seq<u8>, p: nat, labels: seq<seq<u8>>, items: nat)
    decreases items
  {
    && p < |data|
    && if data[p] == 0 then labels == [] && items == 0
       else if data[p] >= 0xC0 then
         && items > 0 && p + 1 < |data|
         && Denotes(data, Target(data[p], data[p + 1]), labels, items - 1)
       else
         && data[p] < 0x40 && items > 0 && labels != []
         && p + 1 + data[p] <= |data|
         && labels[0] == data[p + 1..p + 1 + data[p]]
         && Denotes(data, p + 1 + data[p], labels[1..], items - 1)
  }

  /** The octets of the labels with their length bytes; the name has one more for the root. */
  function Octets(labels: seq<seq<u8>>): nat {
    if labels == [] then 0 else |labels[0]| + 1 + Octets(labels[1..])
  }

  function Dotted(labels: seq<seq<u8>>): (s: seq<u8>)
    ensures |s| == Octets(labels)
  {
    if labels == [] then [] else labels[0] + [DOT] + Dotted(labels[1..])
  }

  function JoinDots(labels: seq<seq<u8>>): seq<u8>
    requires labels != []
  {
    if |labels| == 1 then labels[0] else labels[0] + [DOT] + JoinDots(labels[1..])
  }

  lemma {:induction false} DottedJoins(labels: seq<seq<u8>>)
    requires labels != []
    ensures Dotted(labels) == JoinDots(labels) + [DOT]
  {
    if |labels| == 1 {
      assert labels[0] + [DOT] + [] == labels[0] + [DOT];
    } else {
      DottedJoins(labels[1..]);
      assert labels[0] + [DOT] + (JoinDots(labels[1..]) + [DOT]) == labels[0] + [DOT] + JoinDots(labels[1..]) + [DOT];
    }
  }

  lemma AppendFits(name: seq<u8>, part: seq<u8>)
    requires |name| + |part| + 1 <= DNS_QNAME_MAX
    ensures Append(name, part) == name + part + [DOT]
  {
  }

  /** The walk over a name that fits arrives at its end with all labels. */
  lemma {:induction false} WalkReads(data: seq<u8>, p: nat, name: seq<u8>, count: nat, jumped: bool,
                                     labels: seq<seq<u8>>, items: nat)
    requires |data| <= 0xFFFF && Denotes(data, p, labels, items)
    requires count + items <= 26 && |name| + Octets(labels) <= DNS_QNAME_MAX
    ensures var r := Walk(data, p, name, count, jumped); r.Ended? && r.name == name + Dotted(labels)
    decreases items
  {
    hide Walk, U16, Target, Append;
    var len := data[p];
    if len == 0 {
      WalkEnds(data, p, name, count, jumped);
      assert name + [] == name;
    } else if len >= 0xC0 {
      WalkPointer(data, p, name, count, jumped);
      WalkReads(data, Target(len, data[p + 1]), name, count + 1, true, labels, items - 1);
    } else {
      var part := data[p + 1..p + 1 + len];
      LabelInside(data, p, labels, items);
      WalkLabel(data, p, name, count, jumped);
      AppendFits(name, part);
      U16Small(p + 1 + len);
      WalkReads(data, p + 1 + len, name + part + [DOT], count + 1, jumped, labels[1..], items - 1);
      assert name + part + [DOT] + Dotted(labels[1..]) == name + (part + [DOT] + Dotted(labels[1..]));
    }
  }

  /** After a label comes another item. */
  lemma LabelInside(data: seq<u8>, p: nat, labels: seq<seq<u8>>, items: nat)
    requires Denotes(data, p, labels, items) && 0 < data[p] < 0x40
    ensures p + 1 + data[p] < |data| && !AtPointer(data, p)
  {
    assert Denotes(data, p + 1 + data[p], labels[1..], items - 1);
  }

  /** A walk that ends has decoded every item of the name. */
  lemma {:induction false} WalkCounts(data: seq<u8>, p: nat, name: seq<u8>, count: nat, jumped: bool,
                                      labels: seq<seq<u8>>, items: nat)
    requires |data| <= 0xFFFF && Denotes(data, p, labels, items) && |name| <= DNS_QNAME_MAX && count <= 26
    requires Walk(data, p, name, count, jumped).Ended?
    ensures count + items <= 26
    decreases items
  {
    hide Walk, U16, Target, Append;
    var len := data[p];
    WalkEnds(data, p, name, count, jumped);
    if len == 0 {
    } else if len >= 0xC0 {
      WalkPointer(data, p, name, count, jumped);
      WalkCounts(data, Target(len, data[p + 1]), name, count + 1, true, labels, items - 1);
    } else {
      LabelInside(data, p, labels, items);
      WalkLabel(data, p, name, count, jumped);
      U16Small(p + 1 + len);
      WalkCounts(data, p + 1 + len, Append(name, data[p + 1..p + 1 + len]), count + 1, jumped, labels[1..], items - 1);
    }
  }

  /** For every name in every message: `get_qname` gives its labels joined with dots exactly if the name
      is not the root, takes at most 26 items and at most 256 octets. */
  lemma NameDecoded(data: seq<u8>, off: u16, labels: seq<seq<u8>>, items: nat)
    requires |data| <= 0xFFFF && Denotes(data, off, labels, items)
    ensures (GetName(data, off).Found? && labels != [] && GetName(data, off).name == JoinDots(labels))
            <==> labels != [] && items <= 26 && Octets(labels) + 1 <= 256
  {
    DenotesInside(data, off, labels, items);
    hide Denotes, Walk, Dotted;
    if labels != [] { DottedJoins(labels); }
    if labels != [] && items <= 26 && Octets(labels) + 1 <= 256 {
      WalkReads(data, off, [], 0, false, labels, items);
      assert [] + Dotted(labels) == Dotted(labels);
      assert Dotted(labels)[..|Dotted(labels)| - 1] == JoinDots(labels);
    } else if GetName(data, off).Found? && labels != [] && GetName(data, off).name == JoinDots(labels) {
      WalkCounts(data, off, [], 0, false, labels, items);
    }
  }

  // ---------------------------------------------------------------- where a name ends

  /** The place after the name at `p`: after its root byte, or after its first pointer. */
  function AfterName(data: seq<u8>, p: nat): (r: nat)
    ensures r > p
    decreases |data| - p
  {
    if p >= |data| || data[p] == 0 then p + 1
    else if data[p] >= 0xC0 then p + 2
    else AfterName(data, p + 1 + data[p])
  }

  /** The name has no pointers. */
  predicate Uncompressed(data: seq<u8>, p: nat)
    decreases |data| - p
  {
    p < |data| && (data[p] == 0 || (data[p] < 0x40 && Uncompressed(data, p + 1 + data[p])))
  }

  lemma {:induction false} JumpStays(data: seq<u8>, p: nat, name: seq<u8>, count: nat, jumped: bool,
                                     labels: seq<seq<u8>>, items: nat)
    requires |data| <= 0xFFFF && Denotes(data, p, labels, items) && |name| <= DNS_QNAME_MAX && count <= 26
    requires Walk(data, p, name, count, jumped).Ended?
    ensures var r := Walk(data, p, name, count, jumped);
            && r.jumped == (jumped || !Uncompressed(data, p))
            && (!Uncompressed(data, p) ==> p + 1 < |data| && AfterName(data, p) >= p + 2)
            && (!Uncompressed(data, p) && 0 < data[p] < 0x40 ==> AfterName(data, p) > p + 2)
            && (Uncompressed(data, p) ==> r.ptr + 1 == AfterName(data, p))
    decreases items
  {
    hide Walk, U16, Target, Append;
    var len := data[p];
    WalkEnds(data, p, name, count, jumped);
    if len == 0 {
    } else if len >= 0xC0 {
      WalkPointer(data, p, name, count, jumped);
      JumpStays(data, Target(len, data[p + 1]), name, count + 1, true, labels, items - 1);
    } else {
      LabelInside(data, p, labels, items);
      WalkLabel(data, p, name, count, jumped);
      U16Small(p + 1 + len);
      JumpStays(data, p + 1 + len, Append(name, data[p + 1..p + 1 + len]), count + 1, jumped, labels[1..], items - 1);
    }
  }

  /** The offset returned is the place after the name exactly if the name has no pointer or is one. */
  lemma NextOffset(data: seq<u8>, off: u16, labels: seq<seq<u8>>, items: nat)
    requires |data| <= 0xFFFF && Denotes(data, off, labels, items) && GetName(data, off).Found?
    ensures GetName(data, off).next == AfterName(data, off) <==> Uncompressed(data, off) || data[off] >= 0xC0
  {
    hide Walk, Denotes, U16;
    DenotesInside(data, off, labels, items);
    JumpStays(data, off, [], 0, false, labels, items);
    var r := Walk(data, off, [], 0, false);
    if Uncompressed(data, off) { U16Small(r.ptr + 1); } else { U16Small(off + 2); }
  }

  lemma DenotesInside(data: seq<u8>, p: nat, labels: seq<seq<u8>>, items: nat)
    requires Denotes(data, p, labels, items)
    ensures p < |data| && (data[p] < 0x40 || data[p] >= 0xC0)
  {
  }

  // ---------------------------------------------------------------- names without pointers

  function Items(data: seq<u8>, p: nat): nat
    decreases |data| - p
  {
    if p >= |data| || data[p] == 0 then 0 else 1 + Items(data, p + 1 + data[p])
  }

  datatype Spelling = TooLong | Spelled(name: seq<u8>)

  /** What such a name leaves in the buffer when the number of items plays no role. */
  function Spell(data: seq<u8>, p: nat, name: seq<u8>): (r: Spelling)
    requires Uncompressed(data, p) && |name| <= DNS_QNAME_MAX
    decreases |data| - p
  {
    if data[p] == 0 then Spelled(name)
    else if |name| + data[p] > DNS_QNAME_MAX then TooLong
    else
      assert Uncompressed(data, p + 1 + data[p]);
      Spell(data, p + 1 + data[p], Append(name, data[p + 1..p + 1 + data[p]]))
  }

  lemma {:induction false} WalkUncompressed(data: seq<u8>, p: nat, name: seq<u8>, count: nat, jumped: bool)
    requires Uncompressed(data, p) && |name| <= DNS_QNAME_MAX && count <= 26 && p <= 12 + 64 * count
    ensures Walk(data, p, name, count, jumped)
            == if Spell(data, p, name).Spelled? && count + Items(data, p) <= 26
               then Ended(Spell(data, p, name).name, AfterName(data, p) - 1, jumped) else Stopped
    ensures count + Items(data, p) <= 26 ==> AfterName(data, p) <= 12 + 64 * 26 + 1
    decreases |data| - p
  {
    hide Walk, U16, Append;
    var len := data[p];
    WalkEnds(data, p, name, count, jumped);
    if len != 0 && count < 26 {
      var q := p + 1 + len;
      assert Uncompressed(data, q);
      WalkLabel(data, p, name, count, jumped);
      U16Small(q);
      WalkUncompressed(data, q, if |name| + len <= DNS_QNAME_MAX then Append(name, data[p + 1..q]) else [], count + 1,
                       jumped);
    }
  }

  lemma SamePart(a: seq<u8>, b: seq<u8>, p: nat, n: nat, i: nat, j: nat)
    requires p <= i <= j <= n <= |a| && n <= |b| && a[p..n] == b[p..n]
    ensures a[i..j] == b[i..j]
  {
    assert forall k | i <= k < j :: a[k] == a[p..n][k - p] && b[k] == b[p..n][k - p];
  }

  /** Two messages that agree on an uncompressed name spell it alike. */
  lemma {:induction false} SameName(a: seq<u8>, b: seq<u8>, p: nat, n: nat, name: seq<u8>)
    requires Uncompressed(a, p) && p < AfterName(a, p) <= n <= |a| && n <= |b| && |name| <= DNS_QNAME_MAX
    requires a[p..n] == b[p..n]
    ensures Uncompressed(b, p) && AfterName(b, p) == AfterName(a, p) && Items(b, p) == Items(a, p)
    ensures Spell(b, p, name) == Spell(a, p, name)
    decreases |a| - p
  {
    hide Append;
    assert b[p..n][0] == a[p..n][0];
    var len := a[p];
    if len != 0 {
      var q := p + 1 + len;
      assert AfterName(a, q) == AfterName(a, p) && q < n;
      SamePart(a, b, p, n, p + 1, q);
      SamePart(a, b, p, n, q, n);
      SameName(a, b, q, n, if |name| + len <= DNS_QNAME_MAX then Append(name, a[p + 1..q]) else []);
    }
  }
}
