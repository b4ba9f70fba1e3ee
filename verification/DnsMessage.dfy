/** dns.c and sunproxy.c: answering a query from the hosts file and reading a response. */
module DnsMessage {
  import opened Serial
  import opened DnsName
  import opened Bytes

  const DNS_QCLASS_IN: u16 := 1
  const DNS_QTYPE_A: u16 := 1
  const DNS_QTYPE_AAAA: u16 := 28
  const DNS_SVCB: u16 := 64
  const DNS_HTTPS: u16 := 65
  const DNS_TTL: u32 := 600
  const HEADER := 12  // sizeof(struct dns_header)

  predicate IsResponse(data: seq<u8>)
    requires |data| >= HEADER
  {
    data[2] >= 0x80
  }

  function Opcode(data: seq<u8>): nat
    requires |data| >= HEADER
  {
    data[2] / 8 % 16
  }

  // ---------------------------------------------------------------- queries

  datatype Query = Invalid | Query(qname: seq<u8>, qtype: u16, qclass: u16)

  /** What `get_dns_query` accepts: one question that ends with the message. */
  function QueryOf(data: seq<u8>): Query {
    if |data| < HEADER + 1 then Invalid
    else if !IsResponse(data) && Opcode(data) == 0 && WordAt(data, 4) > 0 then
      match GetName(data, HEADER)
      case NoName => Invalid
      case Found(name, off) =>
        if off > 0 && off + 4 == |data| then Query(name, WordAt(data, off), WordAt(data, off + 2)) else Invalid
    else Invalid
  }

  method GetDnsQuery(data: seq<u8>, qname: array<u8>) returns (r: int, qtype: u16, qclass: u16)
    requires qname.Length == DNS_QNAME_MAX + 1
    modifies qname
    ensures r == if QueryOf(data).Query? then 0 else -1
    ensures match QueryOf(data)
            case Invalid => true
            case Query(name, t, k) =>
              t == qtype && k == qclass && |name| < 255 && qname[..|name|] == name && qname[|name|] == 0
  {
    qtype, qclass := 0, 0;
    if |data| < HEADER + 1 {
      return -1, qtype, qclass;
    }
    if !IsResponse(data) && Opcode(data) == 0 && WordAt(data, 4) > 0 {
      var off := GetQname(data, HEADER, qname);
      if off > 0 && off + 4 == |data| {
        return 0, WordAt(data, off), WordAt(data, off + 2);
      }
    }
    return -1, qtype, qclass;
  }

  // ---------------------------------------------------------------- the hosts answer

  predicate IsAddressQuery(qclass: u16, qtype: u16) {
    qclass == DNS_QCLASS_IN && (qtype == DNS_QTYPE_A || qtype == DNS_QTYPE_AAAA)
  }

  function AddressLength(qtype: u16): nat {
    if qtype == DNS_QTYPE_A then 4 else 16
  }

  /** The header of a query with QR set, the other flags and RCODE cleared, and one answer announced. */
  function AnswerHeader(data: seq<u8>): (b: seq<u8>)
    requires |data| >= HEADER
    ensures |b| == HEADER
  {
    data[0..2] + [0x80 + data[2] / 8 % 16 * 8, 0] + data[4..6] + [0, 1, 0, 0, 0, 0]
  }

  /** `struct dns_rr`; the name is a pointer to the question. */
  function Record(qtype: u16, qclass: u16): (b: seq<u8>)
    ensures |b| == 12
  {
    [0xC0, HEADER] + Net16(qtype) + Net16(qclass) + Net32(DNS_TTL)
    + Net16(AddressLength(qtype))
  }

  function Response(data: seq<u8>, qclass: u16, qtype: u16, addr: seq<u8>): seq<u8>
    requires |data| >= HEADER
  {
    AnswerHeader(data) + data[HEADER..] + Record(qtype, qclass) + addr
  }

  method Store(buffer: array<u8>, at: nat, b: seq<u8>)
    requires at + |b| <= buffer.Length
    modifies buffer
    ensures buffer[..] == old(buffer[..at]) + b + old(buffer[at + |b|..])
  {
    forall i | 0 <= i < |b| {
      buffer[at + i] := b[i];
    }
  }

  /** The copied header, field by field. */
  method AnswerInPlace(response: array<u8>, data: seq<u8>)
    requires HEADER <= |data| <= response.Length && response[..|data|] == data
    modifies response
    ensures response[..|data|] == AnswerHeader(data) + data[HEADER..]
  {
    assert forall i | 0 <= i < |data| :: response[i] == response[..|data|][i];
    response[2] := 0x80 + response[2] / 8 % 16 * 8;
    response[3] := 0;
    response[6], response[7] := 0, 1;
    response[8], response[9] := 0, 0;
    response[10], response[11] := 0, 0;
    ghost var h := AnswerHeader(data);
    assert h == [data[0], data[1], 0x80 + data[2] / 8 % 16 * 8, 0, data[4], data[5], 0, 1, 0, 0, 0, 0];
    assert response[..HEADER] == h;
    assert response[HEADER..|data|] == data[HEADER..];
  }

  /** `check_domain`; `hosts` is what `address_from_hosts` finds, `sent` what goes to the app. */
  method CheckDomain(data: seq<u8>, qclass: u16, qtype: u16, hosts: seq<u8>, listed: bool)
    returns (handled: bool, sent: seq<u8>)
    requires |data| >= HEADER
    requires |hosts| == AddressLength(qtype)
    ensures handled == (IsAddressQuery(qclass, qtype) && listed)
    ensures sent == if handled then Response(data, qclass, qtype, hosts) else []
  {
    if !IsAddressQuery(qclass, qtype) || !listed {
      return false, [];
    }
    hide AnswerHeader, Record;
    var rlen := |data| + 12 + |hosts|;
    var response := new u8[rlen](_ => 0);
    Store(response, 0, data);
    assert response[..|data|] == data;
    AnswerInPlace(response, data);
    ghost var answered := AnswerHeader(data) + data[HEADER..];
    Store(response, |data|, Record(qtype, qclass));
    assert response[..|data| + 12] == answered + Record(qtype, qclass);
    Store(response, |data| + 12, hosts);
    assert response[..] == answered + Record(qtype, qclass) + hosts;
    return true, response[..];
  }

  // ---------------------------------------------------------------- responses

  /** One call of `dns_resolved`; names reach it as C strings. */
  datatype Resolved = Resolved(qname: seq<u8>, name: seq<u8>, rd: seq<u8>, ttl: u32)

  function CString(name: seq<u8>): seq<u8> {
    if name == [] || name[0] == 0 then [] else [name[0]] + CString(name[1..])
  }

  /** A C string is what stands before the first zero byte. */
  lemma {:induction false} CStringExactly(name: seq<u8>)
    ensures var c := CString(name);
            c <= name && 0 !in c && (|c| < |name| ==> name[|c|] == 0)
  {
    if name != [] && name[0] != 0 { CStringExactly(name[1..]); }
  }

  lemma {:induction false} CStringOfBuffer(buffer: seq<u8>, name: seq<u8>)
    requires |name| < |buffer| && buffer[..|name|] == name && buffer[|name|] == 0
    ensures CString(buffer) == CString(name)
  {
    if name != [] {
      assert buffer[0] == name[0];
      assert buffer[1..][..|name[1..]|] == name[1..];
      CStringOfBuffer(buffer[1..], name[1..]);
    }
  }

  /** What one turn of the answer loop does: it gives up, or goes on at `next`. */
  datatype Turn = GiveUp | Next(call: seq<Resolved>, svcb: bool, next: nat)

  function AnswerAt(data: seq<u8>, off: nat, qname: seq<u8>): Turn {
    match GetName(data, U16(off))
    case NoName => GiveUp
    case Found(name, n) => if n > 0 && n + 10 <= |data| then RecordAt(data, n, qname, CString(name)) else GiveUp
  }

  function RecordAt(data: seq<u8>, n: nat, qname: seq<u8>, name: seq<u8>): Turn
    requires n + 10 <= |data|
  {
    var qtype, qclass, ttl, rdlength := WordAt(data, n), WordAt(data, n + 2), LongAt(data, n + 4), WordAt(data, n + 8);
    var o := n + 10;
    if o + rdlength > |data| then GiveUp
    else if IsAddressQuery(qclass, qtype) then
      if o + AddressLength(qtype) > |data| then GiveUp
      else Next([Resolved(qname, name, data[o..o + AddressLength(qtype)], ttl)], false, o + rdlength)
    else Next([], qclass == DNS_QCLASS_IN && (qtype == DNS_SVCB || qtype == DNS_HTTPS), o + rdlength)
  }

  /** The calls made while `left` answers are read from `off` on, whether a SVCB or HTTPS record was among
      them, and the end of the last answer if all could be read. */
  datatype Answers = Answers(calls: seq<Resolved>, svcb: bool, complete: bool, end: nat)

  function ReadAnswers(data: seq<u8>, off: nat, left: nat, qname: seq<u8>): Answers
    decreases left
  {
    if left == 0 then Answers([], false, true, off)
    else
      match AnswerAt(data, off, qname)
      case GiveUp => Answers([], false, false, off)
      case Next(call, svcb, next) => Joined(call, svcb, ReadAnswers(data, next, left - 1, qname))
  }

  function Joined(calls: seq<Resolved>, svcb: bool, rest: Answers): Answers {
    rest.(calls := calls + rest.calls, svcb := svcb || rest.svcb)
  }

  /** Where the answers of a response begin, and the name asked for. */
  datatype Start = Unread | Start(qname: seq<u8>, aoff: nat)

  predicate HasAnswers(data: seq<u8>) {
    && |data| >= HEADER + 1
    && IsResponse(data) && Opcode(data) == 0 && WordAt(data, 4) > 0 && WordAt(data, 6) > 0
  }

  function StartOf(data: seq<u8>): (r: Start)
    ensures r.Start? ==> HasAnswers(data) && r.aoff <= |data|
  {
    if HasAnswers(data) then
      match GetName(data, HEADER)
      case NoName => Unread
      case Found(name, off) => if off > 0 && off + 4 <= |data| then Start(CString(name), off + 4) else Unread
    else Unread
  }

  function ResponseOf(data: seq<u8>): (r: Answers)
    ensures r.complete ==> HasAnswers(data)
  {
    match StartOf(data)
    case Unread => Answers([], false, false, 0)
    case Start(qname, aoff) => ReadAnswers(data, aoff, WordAt(data, 6), qname)
  }

  /** The response an app gets instead: the question alone, and a code. */
  function RefusalHeader(data: seq<u8>, rcode: Code): (b: seq<u8>)
    requires |data| >= HEADER
    ensures |b| == HEADER
  {
    data[0..2] + [0x80 + data[2] / 8 % 16 * 8, rcode] + data[4..6] + [0, 0, 0, 0, 0, 0]
  }

  /** What `is_domain_blocked` answers, and `args->rcode`. */
  datatype Verdict = Verdict(blocked: bool, rcode: Code)

  type Code = x: int | 0 <= x < 16

  predicate Refused(data: seq<u8>, v: Verdict) {
    var r := ResponseOf(data);
    r.complete && (r.svcb || v.blocked)
  }

  /** The bytes `parse_dns_response` leaves where a message was. */
  function Rewritten(data: seq<u8>, v: Verdict): (r: seq<u8>)
    ensures |r| == |data|
  {
    if Refused(data, v) then RefusalHeader(data, v.rcode) + data[HEADER..] else data
  }

  /** Only a response that is refused is changed, and only in its flags and record counts. */
  lemma RewrittenHeaderOnly(data: seq<u8>, v: Verdict)
    ensures var r := Rewritten(data, v);
            && (!Refused(data, v) ==> r == data)
            && forall i | 0 <= i < |data| && i !in {2, 3, 6, 7, 8, 9, 10, 11} :: r[i] == data[i]
  {
    hide ResponseOf, Opcode;
    if Refused(data, v) {
      var h := RefusalHeader(data, v.rcode);
      assert h[0] == data[0] && h[1] == data[1] && h[4] == data[4] && h[5] == data[5];
    }
  }

  method ReadQuestion(data: seq<u8>) returns (r: Start)
    ensures r == StartOf(data)
  {
    hide GetName;
    if !HasAnswers(data) {
      return Unread;
    }
    var name := new u8[DNS_QNAME_MAX + 1];
    var off := GetQname(data, HEADER, name);
    if off > 0 && off + 4 <= |data| {
      CStringOfBuffer(name[..], GetName(data, HEADER).name);
      return Start(CString(name[..]), off + 4);
    }
    return Unread;
  }

  method ReadAnswer(data: seq<u8>, off: nat, qname: seq<u8>) returns (r: Turn)
    ensures r == AnswerAt(data, off, qname)
  {
    hide GetName, RecordAt;
    var name := new u8[DNS_QNAME_MAX + 1];
    var n := GetQname(data, U16(off), name);
    if n > 0 && n + 10 <= |data| {
      CStringOfBuffer(name[..], GetName(data, U16(off)).name);
      return RecordAt(data, n, qname, CString(name[..]));
    }
    return GiveUp;
  }

  method RefuseInPlace(data: array<u8>, rcode: Code)
    requires HEADER <= data.Length
    modifies data
    ensures data[..HEADER] == RefusalHeader(old(data[..]), rcode) && data[HEADER..] == old(data[HEADER..])
  {
    data[2] := 0x80 + data[2] / 8 % 16 * 8;
    data[3] := rcode;
    data[6], data[7] := 0, 0;
    data[8], data[9] := 0, 0;
    data[10], data[11] := 0, 0;
  }

  /** `parse_dns_response` on the first `datalen` bytes of a buffer. */
  method ParseDnsResponse(data: array<u8>, datalen: nat, v: Verdict)
    returns (newlen: nat, calls: seq<Resolved>)
    requires datalen <= data.Length
    modifies data
    ensures calls == ResponseOf(old(data[..datalen])).calls
    ensures data[..datalen] == Rewritten(old(data[..datalen]), v) && data[datalen..] == old(data[datalen..])
    ensures var m := old(data[..datalen]);
            if Refused(m, v) then StartOf(m).Start? && newlen == StartOf(m).aoff else newlen == datalen
  {
    hide StartOf, AnswerAt, RefusalHeader, WordAt;
    ghost var m := data[..datalen];
    calls, newlen := [], datalen;
    var start := ReadQuestion(data[..datalen]);
    if start.Unread? {
      return;
    }
    var acount := WordAt(data[..datalen], 6);
    var off, svcb := start.aoff, false;
    JoinedNone(ReadAnswers(m, off, acount, start.qname));
    for a := 0 to acount
      invariant data[..] == old(data[..])
      invariant ResponseOf(m) == Joined(calls, svcb, ReadAnswers(m, off, acount - a, start.qname))
    {
      var turn := ReadAnswer(data[..datalen], off, start.qname);
      if turn.GiveUp? {
        return;
      }
      JoinedTwice(calls, svcb, turn.call, turn.svcb, ReadAnswers(m, turn.next, acount - a - 1, start.qname));
      calls, svcb, off := calls + turn.call, svcb || turn.svcb, turn.next;
    }
    if svcb || v.blocked {
      RefuseInPlace(data, v.rcode);
      newlen := start.aoff;
      SameHeader(old(data[..]), m, v.rcode);
      assert data[..datalen] == data[..HEADER] + data[HEADER..datalen];
      assert data[HEADER..datalen] == m[HEADER..];
      assert data[datalen..] == data[HEADER..][datalen - HEADER..];
    }
  }

  lemma SameHeader(all: seq<u8>, m: seq<u8>, rcode: Code)
    requires HEADER <= |m| <= |all| && m == all[..|m|]
    ensures RefusalHeader(all, rcode) == RefusalHeader(m, rcode)
  {
  }

  lemma JoinedNone(rest: Answers)
    ensures Joined([], false, rest) == rest
  {
    assert [] + rest.calls == rest.calls;
  }

  lemma JoinedTwice(calls: seq<Resolved>, svcb: bool, more: seq<Resolved>, svcb': bool, rest: Answers)
    ensures Joined(calls, svcb, Joined(more, svcb', rest)) == Joined(calls + more, svcb || svcb', rest)
  {
    assert calls + (more + rest.calls) == calls + more + rest.calls;
  }

  // ---------------------------------------------------------------- the round trip

  /** An accepted query with an uncompressed name: how it was read, and that it is short. */
  lemma QueryRead(data: seq<u8>)
    requires QueryOf(data).Query? && Uncompressed(data, HEADER)
    ensures var p := AfterName(data, HEADER);
            && p + 4 == |data| && p <= 1677 && Items(data, HEADER) <= 26
            && QueryOf(data).qtype == WordAt(data, p) && QueryOf(data).qclass == WordAt(data, p + 2)
    ensures var t := Spell(data, HEADER, []);
            t.Spelled? && t.name != [] && QueryOf(data).qname == t.name[..|t.name| - 1]
  {
    hide Walk, U16, Spell, AfterName, WordAt, Uncompressed;
    WalkUncompressed(data, HEADER, [], 0, false);
    U16Small(AfterName(data, HEADER));
  }

  /** Reading a name that is not too long, directly and through a pointer at `at`. */
  lemma NameRead(data: seq<u8>, at: nat)
    requires Uncompressed(data, HEADER) && Spell(data, HEADER, []).Spelled? && Spell(data, HEADER, []).name != []
    requires HEADER < |data| && Items(data, HEADER) <= 26
    requires at + 1 < |data| && at <= 2000 && data[at] == 0xC0 && data[at + 1] == HEADER
    ensures var name := Spell(data, HEADER, []).name;
            && AfterName(data, HEADER) <= 1677
            && GetName(data, HEADER) == Found(name[..|name| - 1], AfterName(data, HEADER))
            && GetName(data, at) == if Items(data, HEADER) <= 25 then Found(name[..|name| - 1], at + 2) else NoName
  {
    hide Walk, U16, Spell, AfterName, Uncompressed, Items;
    WalkUncompressed(data, HEADER, [], 0, false);
    U16Small(AfterName(data, HEADER));
    assert Target(0xC0, HEADER) == HEADER;
    WalkPointer(data, at, [], 0, false);
    WalkUncompressed(data, HEADER, [], 1, true);
    U16Small(at + 2);
  }

  /** The fields of the answer that `check_domain` appends. */
  lemma RecordRead(data: seq<u8>, at: nat, qtype: u16, qclass: u16, addr: seq<u8>, qname: seq<u8>)
    requires at <= |data| && data[at..] == Record(qtype, qclass) + addr && |addr| == AddressLength(qtype)
    requires IsAddressQuery(qclass, qtype)
    ensures at + 12 + |addr| == |data| && data[at] == 0xC0 && data[at + 1] == HEADER
    ensures RecordAt(data, at + 2, qname, qname) == Next([Resolved(qname, qname, addr, DNS_TTL)], false, |data|)
  {
    hide Net16, Net32, Read16, Read32;
    Net16Reads(qtype);
    Net16Reads(qclass);
    Net32Reads(DNS_TTL);
    Net16Reads(AddressLength(qtype));
    var r := data[at..];
    assert r[0] == data[at] && r[1] == data[at + 1];
    assert data[at + 2..at + 4] == r[2..4] == Net16(qtype);
    assert data[at + 4..at + 6] == r[4..6] == Net16(qclass);
    assert data[at + 6..at + 10] == r[6..10] == Net32(DNS_TTL);
    assert data[at + 10..at + 12] == r[10..12] == Net16(AddressLength(qtype));
    assert data[at + 12..at + 12 + |addr|] == r[12..] == addr;
  }

  lemma ResponseHeader(data: seq<u8>, qclass: u16, qtype: u16, addr: seq<u8>)
    requires |data| > HEADER && !IsResponse(data) && Opcode(data) == 0 && WordAt(data, 4) > 0
    ensures var r := Response(data, qclass, qtype, addr);
            |r| == |data| + 12 + |addr| && HasAnswers(r) && WordAt(r, 6) == 1
            && r[|data|..] == Record(qtype, qclass) + addr && r[HEADER..|data|] == data[HEADER..]
  {
    hide Record;
    var r := Response(data, qclass, qtype, addr);
    assert r[2] == 0x80 && r[4..6] == data[4..6] && r[6..8] == [0, 1];
    assert r[..|data|] == AnswerHeader(data) + data[HEADER..];
  }

  /** Reading back the hosts answer to an accepted query with an uncompressed name: exactly one answer,
      for the name asked for, with the address found in the hosts file and a time to live of 600 seconds,
      up to the end of the message; unless the name has 26 labels, when it is lost. */
  lemma HostsAnswerReads(data: seq<u8>, addr: seq<u8>)
    requires QueryOf(data).Query? && Uncompressed(data, HEADER)
    requires IsAddressQuery(QueryOf(data).qclass, QueryOf(data).qtype) && |addr| == AddressLength(QueryOf(data).qtype)
    ensures var q := QueryOf(data);
            var r := Response(data, q.qclass, q.qtype, addr);
            var name := CString(q.qname);
            ResponseOf(r) == if Items(data, HEADER) <= 25
                             then Answers([Resolved(name, name, addr, 600)], false, true, |r|)
                             else Answers([], false, false, |data|)
  {
    hide Record, AnswerHeader, Spell, Uncompressed, AfterName, GetName, Items, RecordAt, WordAt, Response;
    var q := QueryOf(data);
    var r := Response(data, q.qclass, q.qtype, addr);
    QueryRead(data);
    ResponseHeader(data, q.qclass, q.qtype, addr);
    SameName(data, r, HEADER, |data|, []);
    RecordRead(r, |data|, q.qtype, q.qclass, addr, CString(q.qname));
    NameRead(r, |data|);
    U16Small(|data|);
    assert StartOf(r) == Start(CString(q.qname), |data|);
    AnswersRead(r, |data|, CString(q.qname), addr);
  }

  /** The header of that answer: the identity and the question of the query, QR set, every other flag and the code
      cleared, and one record announced. */
  lemma HostsAnswerHeader(data: seq<u8>, qclass: u16, qtype: u16, addr: seq<u8>)
    requires |data| > 12
    ensures var r := Response(data, qclass, qtype, addr);
            && |r| == |data| + 12 + |addr|
            && WordAt(r, 0) == WordAt(data, 0) && r[2] >= 0x80 && r[2] / 8 % 16 == data[2] / 8 % 16 && r[2] % 8 == 0
            && r[3] == 0 && WordAt(r, 4) == WordAt(data, 4) && WordAt(r, 6) == 1 && WordAt(r, 8) == 0
            && WordAt(r, 10) == 0 && r[12..|data|] == data[12..]
  {
    hide Record;
    var r := Response(data, qclass, qtype, addr);
    var h := AnswerHeader(data);
    assert r[..|data|] == h + data[12..];
    assert forall i | 0 <= i < 12 :: r[i] == r[..|data|][i];
    assert r[0..2] == data[0..2] && r[4..6] == data[4..6];
    assert r[6..8] == [0, 1] && r[8..10] == [0, 0] && r[10..12] == [0, 0];
  }

  lemma AnswersRead(r: seq<u8>, off: nat, qname: seq<u8>, addr: seq<u8>)
    ensures AnswerAt(r, off, qname) == GiveUp ==> ReadAnswers(r, off, 1, qname) == Answers([], false, false, off)
    ensures var call := [Resolved(qname, qname, addr, DNS_TTL)];
            AnswerAt(r, off, qname) == Next(call, false, |r|) ==>
              ReadAnswers(r, off, 1, qname) == Answers(call, false, true, |r|)
  {
    hide AnswerAt;
  }
}
