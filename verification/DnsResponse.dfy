/** Encoding a response and reading it with `parse_dns_response`: sections 4.1.1 to 4.1.3 of RFC 1035. */
module DnsResponse {
  import opened Serial
  import opened Bytes
  import opened DnsName
  import opened DnsMessage

  /** A resource record; `owner` is its name as it is encoded, which denotes `labels` in `items` items. */
  datatype Rr = Rr(owner: seq<u8>, labels: seq<seq<u8>>, items: nat, rtype: u16, rclass: u16, ttl: u32, rdata: seq<u8>)

  predicate IsAddress(r: Rr) {
    r.rclass == 1 && (r.rtype == 1 || r.rtype == 28)
  }

  /** Data of 16 bits length, and addresses of their size. */
  predicate WellFormed(r: Rr) {
    && |r.rdata| <= 0xFFFF
    && (r.rclass == 1 && r.rtype == 1 ==> |r.rdata| == 4) && (r.rclass == 1 && r.rtype == 28 ==> |r.rdata| == 16)
  }

  function EncodeRr(r: Rr): seq<u8>
    requires |r.rdata| <= 0xFFFF
  {
    r.owner + Net16(r.rtype) + Net16(r.rclass) + Net32(r.ttl) + Net16(|r.rdata|) + r.rdata
  }

  function EncodeRrs(rs: seq<Rr>): seq<u8>
    requires forall i | 0 <= i < |rs| :: |rs[i].rdata| <= 0xFFFF
  {
    if rs == [] then [] else EncodeRr(rs[0]) + EncodeRrs(rs[1..])
  }

  /** A name encoded at `off`, which ends before `end`: it denotes its labels in the message, is not the root, takes
      at most 26 items and 256 octets, and has no pointer or is one; what becomes of others is `MixedOwnerMisread`. */
  ghost predicate Owned(data: seq<u8>, off: nat, end: nat, labels: seq<seq<u8>>, items: nat) {
    && off < |data| <= 0xFFFF && Denotes(data, off, labels, items)
    && labels != [] && items <= 26 && Octets(labels) + 1 <= 256
    && (Uncompressed(data, off) || data[off] >= 0xC0) && AfterName(data, off) == end
  }

  /** `get_qname` reads such a name and finds its end. */
  lemma OwnerRead(data: seq<u8>, off: nat, end: nat, labels: seq<seq<u8>>, items: nat)
    requires Owned(data, off, end, labels, items)
    ensures end <= 0xFFFF && GetName(data, U16(off)) == Found(JoinDots(labels), end)
  {
    hide Denotes, Walk, AfterName, Uncompressed, Octets, JoinDots;
    U16Small(off);
    NameDecoded(data, off, labels, items);
    NextOffset(data, off, labels, items);
  }

  /** Labels that end with a pointer, which section 4.1.4 allows too: the name is read, but the rest of the record is
      looked for two bytes behind its start, which is within the name. */
  lemma MixedOwnerMisread(data: seq<u8>, off: nat, labels: seq<seq<u8>>, items: nat, qname: seq<u8>)
    requires off < |data| <= 0xFFFF && Denotes(data, off, labels, items)
    requires labels != [] && items <= 26 && Octets(labels) + 1 <= 256
    requires !Uncompressed(data, off) && data[off] < 0xC0
    ensures GetName(data, U16(off)) == Found(JoinDots(labels), U16(off + 2)) && off + 2 < AfterName(data, off)
    ensures off + 12 <= |data| ==>
              AnswerAt(data, off, qname) == RecordAt(data, off + 2, qname, CString(JoinDots(labels)))
  {
    hide Denotes, Walk, Octets, JoinDots, CString, RecordAt;
    U16Small(off);
    NameDecoded(data, off, labels, items);
    DenotesInside(data, off, labels, items);
    JumpStays(data, off, [], 0, false, labels, items);
    WithinData(data, off, labels, items);
    U16Small(off + 2);
  }

  lemma WithinData(data: seq<u8>, off: nat, labels: seq<seq<u8>>, items: nat)
    requires Denotes(data, off, labels, items)
    requires !Uncompressed(data, off) && data[off] < 0xC0
    ensures off + 2 < |data|
  {
  }

  /** The records lie in the message from `off` on, each behind its name. */
  ghost predicate Lies(data: seq<u8>, off: nat, rs: seq<Rr>)
    decreases |rs|
  {
    rs == []
    || (var r, n := rs[0], off + |rs[0].owner|;
        && WellFormed(r) && off + |EncodeRr(r)| <= |data| && data[off..off + |EncodeRr(r)|] == EncodeRr(r)
        && Owned(data, off, n, r.labels, r.items)
        && Lies(data, off + |EncodeRr(r)|, rs[1..]))
  }

  /** One call for every IN A and AAAA record, in order: the name asked for, the name of the record, its address and
      its time to live. */
  function CallsOf(qname: seq<u8>, rs: seq<Rr>): seq<Resolved> {
    if rs == [] then []
    else
      (if IsAddress(rs[0]) && rs[0].labels != []
       then [Resolved(qname, CString(JoinDots(rs[0].labels)), rs[0].rdata, rs[0].ttl)] else [])
      + CallsOf(qname, rs[1..])
  }

  /** A record that points to a service: IN SVCB or IN HTTPS. */
  predicate HasService(rs: seq<Rr>) {
    exists i :: 0 <= i < |rs| && rs[i].rclass == 1 && (rs[i].rtype == 64 || rs[i].rtype == 65)
  }

  /** The fields behind a name. */
  lemma FieldsRead(data: seq<u8>, off: nat, r: Rr)
    requires |r.rdata| <= 0xFFFF && off + |EncodeRr(r)| <= |data| && data[off..off + |EncodeRr(r)|] == EncodeRr(r)
    ensures var n := off + |r.owner|;
            && |EncodeRr(r)| == |r.owner| + 10 + |r.rdata| && n + 10 + |r.rdata| <= |data|
            && WordAt(data, n) == r.rtype && WordAt(data, n + 2) == r.rclass && LongAt(data, n + 4) == r.ttl
            && WordAt(data, n + 8) == |r.rdata| && data[n + 10..n + 10 + |r.rdata|] == r.rdata
  {
    hide Net16, Net32, Read16, Read32;
    var t, c, l, s := Net16(r.rtype), Net16(r.rclass), Net32(r.ttl), Net16(|r.rdata|);
    Net16Reads(r.rtype);
    Net16Reads(r.rclass);
    Net32Reads(r.ttl);
    Net16Reads(|r.rdata|);
    RecordParts(r.owner, t, c, l, s, r.rdata);
    PartAt(data, off, r.owner, t, c + l + s + r.rdata);
    PartAt(data, off, r.owner + t, c, l + s + r.rdata);
    PartAt(data, off, r.owner + t + c, l, s + r.rdata);
    PartAt(data, off, r.owner + t + c + l, s, r.rdata);
    PartAt(data, off, r.owner + t + c + l + s, r.rdata, []);
  }

  lemma RecordParts(a: seq<u8>, t: seq<u8>, c: seq<u8>, l: seq<u8>, s: seq<u8>, d: seq<u8>)
    ensures var e := a + t + c + l + s + d;
            && e == a + t + (c + l + s + d) && e == a + t + c + (l + s + d) && e == a + t + c + l + (s + d)
            && e == a + t + c + l + s + d + []
  {
  }

  lemma PartAt(data: seq<u8>, off: nat, a: seq<u8>, b: seq<u8>, c: seq<u8>)
    requires off + |a + b + c| <= |data| && data[off..off + |a + b + c|] == a + b + c
    ensures data[off + |a|..off + |a| + |b|] == b
  {
    var w := a + b + c;
    assert forall k | off <= k < off + |w| :: data[k] == data[off..off + |w|][k - off];
    assert forall k | 0 <= k < |b| :: b[k] == w[|a| + k];
  }

  /** Reading one record of any type, class and length: an IN A or AAAA record gives the four or sixteen bytes at its
      data, whatever length it states, and reading stops if the message ends before them. */
  lemma OneRead(data: seq<u8>, off: nat, r: Rr, qname: seq<u8>)
    requires |r.rdata| <= 0xFFFF && off + |EncodeRr(r)| <= |data| && data[off..off + |EncodeRr(r)|] == EncodeRr(r)
    requires Owned(data, off, off + |r.owner|, r.labels, r.items)
    ensures r.labels != []
    ensures var at, size := off + |r.owner| + 10, if r.rtype == 1 then 4 else 16;
            AnswerAt(data, off, qname)
            == if IsAddress(r) && at + size > |data| then GiveUp
               else Next(if IsAddress(r)
                         then [Resolved(qname, CString(JoinDots(r.labels)), data[at..at + size], r.ttl)] else [],
                         r.rclass == 1 && (r.rtype == 64 || r.rtype == 65), off + |EncodeRr(r)|)
  {
    hide GetName, EncodeRr, WordAt, LongAt, Owned, JoinDots, CString;
    assert r.labels != [] && off + |r.owner| > 0 by { OwnedNames(data, off, off + |r.owner|, r.labels, r.items); }
    OwnerRead(data, off, off + |r.owner|, r.labels, r.items);
    FieldsRead(data, off, r);
  }

  /** An address of its proper size is read as it is. */
  lemma ProperRead(data: seq<u8>, off: nat, r: Rr, qname: seq<u8>)
    requires WellFormed(r) && off + |EncodeRr(r)| <= |data| && data[off..off + |EncodeRr(r)|] == EncodeRr(r)
    requires Owned(data, off, off + |r.owner|, r.labels, r.items)
    ensures r.labels != []
    ensures AnswerAt(data, off, qname)
            == Next(if IsAddress(r) then [Resolved(qname, CString(JoinDots(r.labels)), r.rdata, r.ttl)] else [],
                    r.rclass == 1 && (r.rtype == 64 || r.rtype == 65), off + |EncodeRr(r)|)
  {
    hide AnswerAt, EncodeRr, WordAt, LongAt, Owned, JoinDots, CString;
    OneRead(data, off, r, qname);
    FieldsRead(data, off, r);
  }

  lemma OwnedNames(data: seq<u8>, off: nat, end: nat, labels: seq<seq<u8>>, items: nat)
    requires Owned(data, off, end, labels, items)
    ensures labels != [] && |data| <= 0xFFFF && end > 0
  {
  }

  lemma LiesWell(data: seq<u8>, off: nat, rs: seq<Rr>)
    requires Lies(data, off, rs)
    ensures forall i | 0 <= i < |rs| :: |rs[i].rdata| <= 0xFFFF
    decreases |rs|
  {
    hide Owned, EncodeRr;
    if rs != [] {
      LiesWell(data, off + |EncodeRr(rs[0])|, rs[1..]);
      assert forall i | 1 <= i < |rs| :: rs[i] == rs[1..][i - 1];
    }
  }

  /** Reading records that lie in a message: the calls, whether there was a service, and the end, in order and
      complete. */
  lemma {:induction false} RecordsRead(data: seq<u8>, off: nat, rs: seq<Rr>, qname: seq<u8>)
    requires Lies(data, off, rs)
    ensures forall i | 0 <= i < |rs| :: |rs[i].rdata| <= 0xFFFF
    ensures ReadAnswers(data, off, |rs|, qname)
            == Answers(CallsOf(qname, rs), HasService(rs), true, off + |EncodeRrs(rs)|)
    decreases |rs|
  {
    hide AnswerAt, Owned, EncodeRr, JoinDots, CString;
    LiesWell(data, off, rs);
    if rs != [] {
      var r, next := rs[0], off + |EncodeRr(rs[0])|;
      ProperRead(data, off, r, qname);
      RecordsRead(data, next, rs[1..], qname);
      ServiceStep(rs);
    }
  }

  lemma ServiceStep(rs: seq<Rr>)
    requires rs != []
    ensures HasService(rs) <==>
              (rs[0].rclass == 1 && (rs[0].rtype == 64 || rs[0].rtype == 65)) || HasService(rs[1..])
  {
    if HasService(rs[1..]) {
      var i :| 0 <= i < |rs[1..]| && rs[1..][i].rclass == 1 && (rs[1..][i].rtype == 64 || rs[1..][i].rtype == 65);
      assert rs[i + 1] == rs[1..][i];
    }
    if HasService(rs) {
      var i :| 0 <= i < |rs| && rs[i].rclass == 1 && (rs[i].rtype == 64 || rs[i].rtype == 65);
      if i > 0 { assert rs[1..][i - 1] == rs[i]; }
    }
  }

  /** Whatever the bytes are: no more calls than records announced, every one with four or sixteen bytes of address,
      and a reading that is complete stayed within the message. */
  lemma {:induction false} AnswersWithin(data: seq<u8>, off: nat, left: nat, qname: seq<u8>)
    requires off <= |data|
    ensures var r := ReadAnswers(data, off, left, qname);
            && |r.calls| <= left && r.end <= |data|
            && forall i | 0 <= i < |r.calls| :: r.calls[i].qname == qname && |r.calls[i].rd| in {4, 16}
    decreases left
  {
    hide AnswerAt;
    if left > 0 {
      TurnWithin(data, off, qname);
      var turn := AnswerAt(data, off, qname);
      if turn.Next? { AnswersWithin(data, turn.next, left - 1, qname); }
    }
  }

  lemma TurnWithin(data: seq<u8>, off: nat, qname: seq<u8>)
    ensures var turn := AnswerAt(data, off, qname);
            turn.Next? ==> && turn.next <= |data| && |turn.call| <= 1
                           && forall c | c in turn.call :: c.qname == qname && |c.rd| in {4, 16}
  {
    hide GetName, WordAt, LongAt, CString;
  }

  // ---------------------------------------------------------------- whole messages

  /** A message: header, one question, answers, and whatever follows them. */
  datatype Message = Message(id: u16, flags: u16, questions: u16, authority: u16, additional: u16,
                             owner: seq<u8>, labels: seq<seq<u8>>, items: nat, qtype: u16, qclass: u16,
                             answers: seq<Rr>, rest: seq<u8>)

  function Head(m: Message): (b: seq<u8>)
    requires |m.answers| <= 0xFFFF
    ensures |b| == 12
  {
    Net16(m.id) + Net16(m.flags) + Net16(m.questions) + Net16(|m.answers|) + Net16(m.authority) + Net16(m.additional)
  }

  function Encode(m: Message): seq<u8>
    requires |m.answers| <= 0xFFFF && forall i | 0 <= i < |m.answers| :: |m.answers[i].rdata| <= 0xFFFF
  {
    Head(m) + (m.owner + Net16(m.qtype) + Net16(m.qclass)) + EncodeRrs(m.answers) + m.rest
  }

  /** Where the answers begin. */
  function AnswersAt(m: Message): nat {
    12 + |m.owner| + 4
  }

  /** A response of opcode 0 with a question and answers, whose names are what they should be. */
  ghost predicate ValidMessage(m: Message) {
    && 0 < |m.answers| <= 0xFFFF && (forall i | 0 <= i < |m.answers| :: WellFormed(m.answers[i]))
    && m.flags >= 0x8000 && m.flags / 0x800 % 16 == 0 && m.questions > 0
    && Owned(Encode(m), 12, 12 + |m.owner|, m.labels, m.items)
    && NamesLie(Encode(m), AnswersAt(m), m.answers)
  }

  /** The names of the records are what they should be at their places. */
  ghost predicate NamesLie(data: seq<u8>, off: nat, rs: seq<Rr>)
    requires forall i | 0 <= i < |rs| :: |rs[i].rdata| <= 0xFFFF
    decreases |rs|
  {
    rs == []
    || (Owned(data, off, off + |rs[0].owner|, rs[0].labels, rs[0].items)
        && NamesLie(data, off + |EncodeRr(rs[0])|, rs[1..]))
  }

  lemma {:induction false} EncodedLies(data: seq<u8>, off: nat, rs: seq<Rr>)
    requires forall i | 0 <= i < |rs| :: WellFormed(rs[i]) && |rs[i].rdata| <= 0xFFFF
    requires off + |EncodeRrs(rs)| <= |data| && data[off..off + |EncodeRrs(rs)|] == EncodeRrs(rs)
    requires NamesLie(data, off, rs)
    ensures Lies(data, off, rs)
    decreases |rs|
  {
    hide Owned, EncodeRr, WellFormed;
    if rs != [] {
      var e, tail := EncodeRr(rs[0]), EncodeRrs(rs[1..]);
      assert EncodeRrs(rs) == e + tail;
      SliceOf(data, off, e, tail);
      assert WellFormed(rs[0]);
      EncodedLies(data, off + |e|, rs[1..]);
    }
  }

  lemma AllFit(rs: seq<Rr>)
    requires forall i | 0 <= i < |rs| :: WellFormed(rs[i])
    ensures forall i | 0 <= i < |rs| :: |rs[i].rdata| <= 0xFFFF
  {
  }

  lemma SliceOf(data: seq<u8>, off: nat, a: seq<u8>, b: seq<u8>)
    requires off + |a + b| <= |data| && data[off..off + |a + b|] == a + b
    ensures data[off..off + |a|] == a && data[off + |a|..off + |a| + |b|] == b
  {
    assert data[off..off + |a|] == data[off..off + |a + b|][..|a|];
    assert data[off + |a|..off + |a| + |b|] == data[off..off + |a + b|][|a|..];
  }

  /** The header read back. */
  lemma HeadRead(m: Message)
    requires |m.answers| <= 0xFFFF && forall i | 0 <= i < |m.answers| :: |m.answers[i].rdata| <= 0xFFFF
    ensures var d := Encode(m);
            && |d| >= 16 && WordAt(d, 0) == m.id && WordAt(d, 4) == m.questions && WordAt(d, 6) == |m.answers|
            && (IsResponse(d) <==> m.flags >= 0x8000) && Opcode(d) == m.flags / 0x800 % 16
  {
    hide EncodeRrs, Read16;
    var d, h := Encode(m), Head(m);
    Net16Reads(m.id);
    Net16Reads(m.questions);
    Net16Reads(|m.answers|);
    assert d[..12] == h;
    assert d[0..2] == h[0..2] == Net16(m.id);
    assert d[4..6] == h[4..6] == Net16(m.questions);
    assert d[6..8] == h[6..8] == Net16(|m.answers|);
    assert d[2] == h[2] == m.flags / 256;
  }

  /** For every response, any records of any types and classes among its answers: reading it calls `dns_resolved`
      once for every IN A and AAAA record, in order, notices a service exactly if there is one, and comes to the end
      of the answers. */
  lemma ResponseRead(m: Message)
    requires ValidMessage(m)
    ensures var qname := CString(JoinDots(m.labels));
            && StartOf(Encode(m)) == Start(qname, AnswersAt(m))
            && ResponseOf(Encode(m))
               == Answers(CallsOf(qname, m.answers), HasService(m.answers), true, |Encode(m)| - |m.rest|)
  {
    hide Owned, EncodeRrs, Head, WordAt, GetName, JoinDots, CString, WellFormed, Opcode, IsResponse;
    AllFit(m.answers);
    var d := Encode(m);
    HeadRead(m);
    OwnedNames(d, 12, 12 + |m.owner|, m.labels, m.items);
    OwnerRead(d, 12, 12 + |m.owner|, m.labels, m.items);
    U16Small(12);
    var e := EncodeRrs(m.answers);
    assert d[AnswersAt(m)..AnswersAt(m) + |e|] == e;
    EncodedLies(d, AnswersAt(m), m.answers);
    RecordsRead(d, AnswersAt(m), m.answers, CString(JoinDots(m.labels)));
  }

  /** It is refused exactly if the name is blocked or a service is among the answers; then what is left is the
      question, with the answer code and no records announced. */
  lemma ResponseRefused(m: Message, v: Verdict)
    requires ValidMessage(m)
    ensures Refused(Encode(m), v) <==> v.blocked || HasService(m.answers)
    ensures Refused(Encode(m), v) ==>
              var r := Rewritten(Encode(m), v)[..AnswersAt(m)];
              && |r| == AnswersAt(m) && WordAt(r, 0) == m.id && WordAt(r, 4) == m.questions
              && IsResponse(r) && Opcode(r) == 0 && r[2] % 8 == 0 && r[3] == v.rcode
              && WordAt(r, 6) == 0 && WordAt(r, 8) == 0 && WordAt(r, 10) == 0 && r[12..] == Encode(m)[12..AnswersAt(m)]
  {
    hide Owned, EncodeRrs, Head, CString, JoinDots, ResponseOf, NamesLie, CallsOf, WellFormed, RefusalHeader, WordAt;
    hide HasService, IsResponse, Opcode;
    AllFit(m.answers);
    ResponseRead(m);
    HeadRead(m);
    var d := Encode(m);
    if Refused(d, v) {
      RefusalRead(d, v.rcode);
      var h := RefusalHeader(d, v.rcode);
      var r := Rewritten(d, v)[..AnswersAt(m)];
      assert r == (h + d[12..])[..AnswersAt(m)];
      assert r[..12] == h && r[12..] == d[12..AnswersAt(m)];
      SameStart(h, r);
    }
  }

  /** The header of a refusal, read. */
  lemma RefusalRead(d: seq<u8>, rcode: Code)
    requires |d| >= 12
    ensures var h := RefusalHeader(d, rcode);
            && WordAt(h, 0) == WordAt(d, 0) && WordAt(h, 4) == WordAt(d, 4) && IsResponse(h) && Opcode(h) == Opcode(d)
            && h[2] % 8 == 0 && h[3] == rcode && WordAt(h, 6) == 0 && WordAt(h, 8) == 0 && WordAt(h, 10) == 0
  {
    var h := RefusalHeader(d, rcode);
    assert h[0..2] == d[0..2] && h[4..6] == d[4..6];
    assert h[6..8] == [0, 0] && h[8..10] == [0, 0] && h[10..12] == [0, 0];
  }

  /** A message read up to its header. */
  lemma SameStart(h: seq<u8>, r: seq<u8>)
    requires |h| == 12 <= |r| && r[..12] == h
    ensures IsResponse(r) == IsResponse(h) && Opcode(r) == Opcode(h) && r[2] == h[2] && r[3] == h[3]
    ensures forall i | 0 <= i <= 10 :: WordAt(r, i) == WordAt(h, i)
  {
    hide Read16;
    assert forall i | 0 <= i < 12 :: r[i] == r[..12][i];
    forall i | 0 <= i <= 10 ensures WordAt(r, i) == WordAt(h, i) {
      assert r[i..i + 2] == h[i..i + 2];
    }
  }

  // ---------------------------------------------------------------- queries

  /** A message without answers. */
  ghost predicate ValidQuestion(m: Message) {
    m.answers == [] && Owned(Encode(m), 12, 12 + |m.owner|, m.labels, m.items)
  }

  /** A query is accepted exactly if it is one, of opcode 0, with a question and nothing behind it; then its name, type
      and class are read. */
  lemma QueryAccepted(m: Message)
    requires ValidQuestion(m)
    ensures QueryOf(Encode(m))
            == if m.flags < 0x8000 && m.flags / 0x800 % 16 == 0 && m.questions > 0 && m.rest == []
               then Query(JoinDots(m.labels), m.qtype, m.qclass) else Invalid
  {
    hide Owned, Head, WordAt, GetName, JoinDots, Opcode, IsResponse, Net16, Read16;
    var d := Encode(m);
    HeadRead(m);
    OwnedNames(d, 12, 12 + |m.owner|, m.labels, m.items);
    OwnerRead(d, 12, 12 + |m.owner|, m.labels, m.items);
    U16Small(12);
    Net16Reads(m.qtype);
    Net16Reads(m.qclass);
    var n := 12 + |m.owner|;
    assert d == Head(m) + m.owner + Net16(m.qtype) + Net16(m.qclass) + m.rest;
    assert d[n..n + 2] == Net16(m.qtype) && d[n + 2..n + 4] == Net16(m.qclass);
    assert WordAt(d, n) == m.qtype && WordAt(d, n + 2) == m.qclass by { WordsRead(d, n, m.qtype, m.qclass); }
  }

  lemma WordsRead(d: seq<u8>, n: nat, a: u16, b: u16)
    requires n + 4 <= |d| && d[n..n + 2] == Net16(a) && d[n + 2..n + 4] == Net16(b)
    ensures WordAt(d, n) == a && WordAt(d, n + 2) == b
  {
  }

  // ---------------------------------------------------------------- an example

  /** A response of 49 bytes to `a`: an alias without data of interest, then an address. */
  function Alias(): Message {
    Message(7, 0x8180, 1, 0, 0, [1, 0x61, 0], [[0x61]], 1, 1, 1,
            [Rr([0xC0, 12], [[0x61]], 2, 5, 1, 600, [0xC0, 12]),
             Rr([0xC0, 12], [[0x61]], 2, 1, 1, 600, [1, 2, 3, 4])], [])
  }

  lemma AliasRead()
    ensures ValidMessage(Alias()) && |Encode(Alias())| == 49
    ensures ResponseOf(Encode(Alias())) == Answers([Resolved([0x61], [0x61], [1, 2, 3, 4], 600)], false, true, 49)
  {
    hide Encode, EncodeRr, EncodeRrs, Owned, Net16, Net32, ResponseOf;
    var m := Alias();
    var d := Encode(m);
    AliasBytes();
    AliasName(d);
    assert m.answers[1..] == [m.answers[1]];
    assert m.answers[1..][1..] == [];
    ResponseRead(m);
    assert CallsOf([0x61], m.answers) == [Resolved([0x61], [0x61], [1, 2, 3, 4], 600)] by {
      assert CString([0x61]) == [0x61];
    }
  }

  lemma AliasBytes()
    ensures |EncodeRr(Alias().answers[0])| == 14
    ensures var d := Encode(Alias());
            |d| == 49 && d[12..15] == [1, 0x61, 0] && d[19..21] == [0xC0, 12] && d[33..35] == [0xC0, 12]
  {
    hide Net16, Net32;
    var m := Alias();
    var a, b := m.answers[0], m.answers[1];
    assert m.answers[1..] == [b] && [b][1..] == [];
    var e, f := EncodeRr(a), EncodeRr(b);
    assert EncodeRrs([b]) == f + [];
    assert EncodeRrs(m.answers) == e + f;
    assert |e| == 14 && |f| == 16 && e[..2] == [0xC0, 12] && f[..2] == [0xC0, 12];
    var d := Encode(m);
    var h := Head(m) + (m.owner + Net16(m.qtype) + Net16(m.qclass));
    assert d == h + e + f && |h| == 19 && h[12..15] == m.owner;
    assert d[12..15] == h[12..15] && d[19..21] == e[..2] && d[33..35] == f[..2];
  }

  lemma AliasName(d: seq<u8>)
    requires |d| == 49 && d[12..15] == [1, 0x61, 0] && d[19..21] == [0xC0, 12] && d[33..35] == [0xC0, 12]
    ensures Owned(d, 12, 15, [[0x61]], 1) && Owned(d, 19, 21, [[0x61]], 2) && Owned(d, 33, 35, [[0x61]], 2)
  {
    assert d[12] == 1 && d[13] == 0x61 && d[14] == 0;
    assert d[19] == 0xC0 && d[20] == 12 && d[33] == 0xC0 && d[34] == 12;
    assert Denotes(d, 14, [], 0);
    assert d[13..14] == [0x61];
    assert Denotes(d, 12, [[0x61]], 1);
    assert Target(0xC0, 12) == 12;
    assert Denotes(d, 19, [[0x61]], 2) && Denotes(d, 33, [[0x61]], 2);
    assert Octets([[0x61]]) == 2;
  }
}
