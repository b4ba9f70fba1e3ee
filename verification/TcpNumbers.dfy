/** What the 32-bit numbers of a session stand for, for every run whatsoever: `remote_seq` and `local_seq`,
    and those of every packet written.  No assumption on the app, the server or the clock is made here. */
module TcpNumbers {
  import opened Serial
  import opened TcpModel
  import opened TcpLife
  import DnsMessage

  function SentTotal(q: seq<Segment>): nat {
    if q == [] then 0 else q[0].sent + SentTotal(q[1..])
  }

  /** Toward the server: `remote_seq` counts what was forwarded, and what send() took is forwarded or part of
      a queued segment. */
  ghost predicate RemoteCounts(c: Conn) {
    && c.s.remoteSeq == U32(c.s.remoteStart + RemotePos(c.h))
    && |c.h.accepted| == c.h.forwarded + SentTotal(c.s.forward)
  }

  predicate Ended(s: Tcp) {
    s.state == Closing || s.state == Close
  }

  /** Toward the app: `local_seq` counts what was written, and while the session lives that is all there is. */
  ghost predicate LocalCounts(c: Conn) {
    && c.s.localSeq == U32(c.s.localStart + LocalPos(c.h))
    && |c.h.relayed| == |c.h.read| && (!c.s.dns ==> c.h.relayed == c.h.read)
    && c.h.written <= |c.h.read| && (!Ended(c.s) ==> c.h.written == |c.h.read|)
  }

  /** The numbers of a packet are the stream positions they stand for, its data is what was relayed there, and
      it acknowledges no more than was counted. */
  ghost predicate Numbered(e: Emission, h: History, localStart: u32, remoteStart: u32) {
    && e.packet.seqNo == U32(localStart + e.seqPos)
    && (e.packet.ackFlag ==> e.packet.ackNo == U32(remoteStart + e.ackPos) && e.ackPos <= RemotePos(h))
    && (e.packet.data != [] ==>
          && 1 <= e.seqPos <= e.seqPos - 1 + |e.packet.data| <= |h.relayed|
          && e.packet.data == h.relayed[e.seqPos - 1..e.seqPos - 1 + |e.packet.data|])
  }

  ghost predicate AllNumbered(c: Conn) {
    forall i | 0 <= i < |c.h.packets| :: Numbered(c.h.packets[i], c.h, c.s.localStart, c.s.remoteStart)
  }

  ghost predicate NumbersInv(c: Conn) {
    RemoteCounts(c) && LocalCounts(c) && AllNumbered(c)
  }

  // ---------------------------------------------------------------- the pieces a step is made of

  /** Nothing that is counted moved. */
  predicate SameNumbers(c: Conn, d: Conn) {
    && d.s.remoteStart == c.s.remoteStart && d.s.remoteSeq == c.s.remoteSeq && RemotePos(d.h) == RemotePos(c.h)
    && d.s.localStart == c.s.localStart && d.s.localSeq == c.s.localSeq && LocalPos(d.h) == LocalPos(c.h)
    && d.s.dns == c.s.dns && d.h.accepted == c.h.accepted && d.h.forwarded == c.h.forwarded
    && d.s.forward == c.s.forward && d.h.read == c.h.read && d.h.relayed == c.h.relayed
    && d.h.written == c.h.written && d.h.packets == c.h.packets && (Ended(c.s) ==> Ended(d.s))
  }

  lemma Kept(c: Conn, d: Conn)
    requires NumbersInv(c) && SameNumbers(c, d)
    ensures NumbersInv(d)
  {
    hide U32;
    forall i | 0 <= i < |d.h.packets| ensures Numbered(d.h.packets[i], d.h, d.s.localStart, d.s.remoteStart) {
      assert Numbered(c.h.packets[i], c.h, c.s.localStart, c.s.remoteStart);
    }
  }

  /** More was counted or relayed, and no packet written. */
  lemma LogKept(c: Conn, d: Conn)
    requires AllNumbered(c) && d.h.packets == c.h.packets
    requires d.s.localStart == c.s.localStart && d.s.remoteStart == c.s.remoteStart
    requires RemotePos(c.h) <= RemotePos(d.h) && c.h.relayed <= d.h.relayed
    ensures AllNumbered(d)
  {
    hide U32;
    forall i | 0 <= i < |d.h.packets| ensures Numbered(d.h.packets[i], d.h, d.s.localStart, d.s.remoteStart) {
      assert Numbered(c.h.packets[i], c.h, c.s.localStart, c.s.remoteStart);
    }
  }

  /** One packet more, of the numbers that stand in the record. */
  lemma LogExtended(c: Conn, data: seq<u8>, syn: bool, ack: bool, fin: bool, rst: bool, back: nat)
    requires back <= 1 && AllNumbered(c)
    requires c.s.localSeq == U32(c.s.localStart + LocalPos(c.h))
    requires c.s.remoteSeq == U32(c.s.remoteStart + RemotePos(c.h))
    requires data != [] ==> LocalPos(c.h) == 1 + c.h.written && c.h.written + |data| <= |c.h.relayed|
                            && data == c.h.relayed[c.h.written..c.h.written + |data|]
    ensures AllNumbered(WriteTcp(c, data, syn, ack, fin, rst, back))
  {
    var d := WriteTcp(c, data, syn, ack, fin, rst, back);
    AheadIsDistance(c.s.remoteSeq, back);
    forall i | 0 <= i < |d.h.packets| ensures Numbered(d.h.packets[i], d.h, d.s.localStart, d.s.remoteStart) {
      if i < |c.h.packets| {
        assert Numbered(c.h.packets[i], c.h, c.s.localStart, c.s.remoteStart);
      }
    }
  }

  lemma WriteNumbers(c: Conn, syn: bool, ack: bool, fin: bool, rst: bool, back: nat)
    requires NumbersInv(c) && back <= 1
    ensures NumbersInv(WriteTcp(c, [], syn, ack, fin, rst, back))
  {
    hide AllNumbered, U32;
    LogExtended(c, [], syn, ack, fin, rst, back);
  }

  lemma CountNumbers(c: Conn)
    requires NumbersInv(c)
    ensures NumbersInv(CountSyn(c)) && NumbersInv(CountFin(c))
  {
    hide AllNumbered, U32, Plus;
    PlusTracks(c.s.remoteStart, RemotePos(c.h), 1);
    LogKept(c, CountSyn(c));
    LogKept(c, CountFin(c));
  }

  /** A SYN or a FIN toward the app moves `local_seq`. */
  lemma SentNumbers(c: Conn, d: Conn)
    requires NumbersInv(c) && d.s.localSeq == Plus(c.s.localSeq, 1) && LocalPos(d.h) == LocalPos(c.h) + 1
    requires var h := d.h.(synSent := c.h.synSent, finSent := c.h.finSent);
             SameNumbers(c, Conn(d.s.(localSeq := c.s.localSeq), h))
    ensures NumbersInv(d)
  {
    hide AllNumbered, U32, Plus;
    PlusTracks(c.s.localStart, LocalPos(c.h), 1);
    LogKept(c, d);
  }

  // ---------------------------------------------------------------- packets from the app

  lemma RstNumbers(c: Conn)
    requires NumbersInv(c)
    ensures NumbersInv(WriteRst(c))
  {
    hide NumbersInv, WriteTcp, CountSyn;
    CountNumbers(c);
    var listening := c.s.state == Listen;
    var d := if listening then CountSyn(c) else c;
    WriteNumbers(d, false, listening, false, true, 0);
    Kept(WriteTcp(d, [], false, listening, false, true, 0), WriteRst(c));
  }

  lemma AckNumbers(c: Conn, ok: bool)
    requires NumbersInv(c)
    ensures NumbersInv(WriteAck(c, ok))
  {
    hide NumbersInv, WriteTcp;
    WriteNumbers(c, false, true, false, false, 0);
    Kept(WriteTcp(c, [], false, true, false, false, 0), WriteAck(c, ok));
  }

  lemma AckStays(c: Conn)
    ensures WriteAck(c, true).s == c.s
  {
  }

  lemma FinNumbers(c: Conn, ok: bool)
    requires NumbersInv(c) && !Ended(c.s)
    ensures NumbersInv(HandleFin(c, ok))
  {
    hide NumbersInv, WriteAck;
    CountNumbers(c);
    AckNumbers(CountFin(c), ok);
    AckStays(CountFin(c));
    var d := if c.s.forward == [] || c.s.state == FinWait1 then WriteAck(CountFin(c), ok) else c;
    if d != HandleFin(c, ok) && (c.s.state == Established || c.s.state == FinWait1) { Kept(d, HandleFin(c, ok)); }
  }

  lemma FlagsNumbers(c: Conn, pkt: InPacket, ok: bool)
    requires NumbersInv(c) && !Ended(c.s)
    ensures NumbersInv(HandleFlags(c, pkt, ok))
  {
    hide NumbersInv, Plus, CompareU32, WriteRst, HandleFin;
    RstNumbers(c);
    FinNumbers(c, ok);
    Kept(c, c.(s := c.s.(state := Closing)));
    Kept(c, c.(s := c.s.(acked := pkt.ackNo)));
    Kept(c, HandleAck(c, pkt.ackNo));
  }

  /** A segment filed, or refilled, has nothing sent that was not counted before. */
  lemma {:induction false} InsertSent(q: seq<Segment>, seg: Segment)
    requires seg.sent == 0
    ensures SentTotal(Insert(q, seg)) == SentTotal(q)
  {
    hide CompareU32;
    if q != [] {
      InsertSent(q[1..], seg);
      assert Insert(q, seg)[1..] == q || Insert(q, seg)[1..] == q[1..] || Insert(q, seg)[1..] == Insert(q[1..], seg);
    }
  }

  lemma QueueNumbers(c: Conn, pkt: InPacket)
    requires NumbersInv(c)
    ensures NumbersInv(QueueTcp(c, pkt))
  {
    hide AllNumbered, U32, CompareU32, Insert;
    InsertSent(c.s.forward, Segment(pkt.seqNo, pkt.data, 0, pkt.psh));
    LogKept(c, QueueTcp(c, pkt));
  }

  lemma PacketNumbers(c: Conn, pkt: InPacket, now: int, ok: bool)
    requires NumbersInv(c)
    ensures NumbersInv(HandleTcp(c, pkt, now, ok))
  {
    hide NumbersInv, QueueTcp, Scaled, HandleFlags, WriteRst;
    RstNumbers(c);
    if c.s.state != Closing && c.s.state != Close {
      var d := Refresh(c, pkt, now);
      Kept(c, d);
      RstNumbers(d);
      QueueNumbers(d, pkt);
      QueueStays(d, pkt);
      FlagsNumbers(if pkt.data != [] then QueueTcp(d, pkt) else d, pkt, ok);
    }
  }

  lemma QueueStays(c: Conn, pkt: InPacket)
    ensures QueueTcp(c, pkt).s.state == c.s.state
  {
    hide CompareU32, Insert;
  }

  // ---------------------------------------------------------------- socket events

  lemma TakeNumbers(c: Conn, n: nat)
    requires NumbersInv(c) && c.s.forward != [] && c.s.forward[0].start == c.s.remoteSeq
    requires c.s.forward[0].sent + n <= |c.s.forward[0].data|
    ensures NumbersInv(TakeHead(c, n))
  {
    hide AllNumbered, U32, Plus;
    var seg := c.s.forward[0];
    PlusTracks(c.s.remoteStart, RemotePos(c.h), |seg.data|);
    LogKept(c, TakeHead(c, n));
  }

  lemma {:induction false} ForwardNumbers(c: Conn, free: nat, sends: seq<SendResult>, fwd: bool)
    requires NumbersInv(c)
    ensures NumbersInv(Forward(c, free, sends, fwd).0)
    decreases |sends|
  {
    hide NumbersInv, TakeHead, WriteRst;
    RstNumbers(c);
    if HeadReady(c.s, free) && sends != [] && sends[0].Sent? {
      var offered := |c.s.forward[0].data| - c.s.forward[0].sent;
      var n := if sends[0].count <= offered then sends[0].count else offered;
      TakeNumbers(c, n);
      if n == offered { ForwardNumbers(TakeHead(c, n), free - n, sends[1..], true); }
    }
  }

  lemma AcknowledgeNumbers(c: Conn, fwd: bool, ev: SocketEvent)
    requires NumbersInv(c)
    ensures NumbersInv(Acknowledge(c, fwd, ev))
  {
    hide NumbersInv, GetReceiveWindow, WriteAck, CountFin;
    var d := c.(s := c.s.(recvWindow := GetReceiveWindow(c.s, ev.free2)));
    Kept(c, d);
    CountNumbers(d);
    var e := if fwd && d.s.forward == [] && d.s.state == CloseWait then CountFin(d) else d;
    AckNumbers(e, ev.ackOk);
    var f := WriteAck(e, ev.ackOk);
    Kept(f, f.(s := f.s.(time := ev.now)));
  }

  lemma EofNumbers(c: Conn, ok: bool)
    requires NumbersInv(c)
    ensures NumbersInv(HandleEof(c, ok))
  {
    hide NumbersInv, WriteRst, SendFin;
    RstNumbers(c);
    SendFinNumbers(c, ok);
    var d := if c.s.forward == [] then SendFin(c, ok) else WriteRst(c);
    Kept(d, CloseSocket(d));
  }

  lemma SendFinNumbers(c: Conn, ok: bool)
    requires NumbersInv(c)
    ensures NumbersInv(SendFin(c, ok))
  {
    hide NumbersInv, WriteTcp, Plus;
    WriteNumbers(c, false, true, true, false, 0);
    var w := WriteTcp(c, [], false, true, true, false, 0);
    if ok {
      var l := w.(s := w.s.(localSeq := Plus(w.s.localSeq, 1)), h := w.h.(finSent := w.h.finSent + 1));
      SentNumbers(w, l);
      Kept(l, SendFin(c, ok));
    } else {
      Kept(w, SendFin(c, ok));
    }
  }

  lemma DataNumbers(c: Conn, data: Chunk, v: DnsMessage.Verdict, ok: bool)
    requires NumbersInv(c) && !Ended(c.s) && c.h.synSent == 1 && c.h.finSent == 0
    ensures NumbersInv(HandleData(c, data, v, ok))
  {
    hide AllNumbered, U32, Plus, Passed;
    var relayed := Passed(c.s.dns, data, v);
    var r := CountRead(c, data, relayed);
    LogKept(c, r);
    LogExtended(r, relayed, false, true, false, false, 0);
    LogKept(WriteTcp(r, relayed, false, true, false, false, 0), HandleData(c, data, v, ok));
    PlusTracks(r.s.localStart, LocalPos(r.h), |data|);
  }

  lemma Relaying(c: Conn)
    requires LifeInv(c) && (c.s.state == Established || c.s.state == CloseWait)
    ensures c.h.synSent == 1 && c.h.finSent == 0
  {
  }

  lemma ReadNumbers(c: Conn, ev: SocketEvent)
    requires NumbersInv(c) && LifeInv(c)
    ensures NumbersInv(ReadSocket(c, ev))
  {
    hide NumbersInv, LifeInv, GetSendWindow, HandleEof, HandleData, WriteRst;
    var t := c.(s := c.s.(time := ev.now));
    Kept(c, t);
    if c.s.state == Established || c.s.state == CloseWait {
      Relaying(c);
      RstNumbers(t);
      EofNumbers(t, ev.writeOk);
      if ev.recv.Received? {
        var window := GetSendWindow(c.s);
        var size := if window > c.s.mss then c.s.mss else window;
        DataNumbers(t, if |ev.recv.data| <= size then ev.recv.data else ev.recv.data[..size], ev.verdict, ev.writeOk);
      }
    }
  }

  lemma ConnectedNumbers(c: Conn, ev: SocketEvent)
    requires NumbersInv(c) && !Ended(c.s)
    ensures NumbersInv(Connected(c, ev))
  {
    hide NumbersInv, WriteTcp, Plus, CountSyn;
    var d := CountSyn(c);
    CountNumbers(c);
    WriteNumbers(d, true, true, false, false, 0);
    var w := WriteTcp(d, [], true, true, false, false, 0);
    if ev.writeOk {
      WrittenStays(c, w);
      SentNumbers(w, Connected(c, ev));
    } else {
      Kept(w, Connected(c, ev));
    }
  }

  lemma WrittenStays(c: Conn, w: Conn)
    requires w == WriteTcp(CountSyn(c), [], true, true, false, false, 0)
    ensures w.s.state == c.s.state
  {
    hide Plus, Minus;
  }

  lemma SocketNumbers(c: Conn, ev: SocketEvent)
    requires NumbersInv(c) && LifeInv(c) && c.s.open
    ensures NumbersInv(CheckTcpSocket(c, ev))
  {
    hide NumbersInv, LifeInv, Forward, Acknowledge, ReadSocket, Connected, WriteRst;
    if ev.err {
      Kept(c, c.(s := c.s.(time := ev.now)));
      RstNumbers(c.(s := c.s.(time := ev.now)));
    } else if c.s.state == Listen {
      ConnectedNumbers(c, ev);
    } else {
      ForwardNumbers(c, ev.free, ev.sends, false);
      ForwardStill(c, ev.free, ev.sends);
      var (d, fwd) := if ev.writable then Forward(c, ev.free, ev.sends, false) else (c, false);
      AcknowledgeNumbers(d, fwd, ev);
      AcknowledgeLife(d, fwd, ev);
      ReadNumbers(Acknowledge(d, fwd, ev), ev);
    }
  }

  /** No FIN is owed before the loop. */
  lemma ForwardStill(c: Conn, free: nat, sends: seq<SendResult>)
    requires LifeInv(c) && c.s.open
    ensures var (d, f) := Forward(c, free, sends, false); LifeInv(d, f) && d.s.open && (f ==> d.h.finSeen == 0)
  {
    hide LifeInv;
    ForwardLife(c, free, sends, false);
  }

  // ---------------------------------------------------------------- monitoring and ageing

  lemma MonitorNumbers(c: Conn, m: MonitorInput)
    requires NumbersInv(c)
    ensures NumbersInv(MonitorTcpSession(c, m).0)
  {
    hide NumbersInv, GetSendWindow, HeadReady, KeepAlive;
    ProbeNumbers(c, m);
    var starved := (c.s.state == Established || c.s.state == CloseWait) && GetSendWindow(c.s) == 0;
    Kept(if starved then KeepAlive(c, m) else c, MonitorTcpSession(c, m).0);
  }

  lemma ProbeNumbers(c: Conn, m: MonitorInput)
    requires NumbersInv(c)
    ensures NumbersInv(KeepAlive(c, m))
  {
    hide NumbersInv, WriteTcp;
    if m.ms - c.s.lastKeepAlive > EPOLL_MIN_CHECK {
      var d := c.(s := c.s.(lastKeepAlive := m.ms));
      Kept(c, d);
      WriteNumbers(d, false, true, false, false, 1);
      Kept(WriteTcp(d, [], false, true, false, false, 1), KeepAlive(c, m));
    }
  }

  lemma AgeNumbers(c: Conn, a: AgeInput)
    requires NumbersInv(c) && a.maxSessions > 0
    ensures NumbersInv(CheckTcpSession(c, a).0)
  {
    hide NumbersInv, GetTcpTimeout, WriteRst;
    RstNumbers(c);
    Kept(c, c.(s := c.s.(state := Closing)));
    Kept(Expire(c, a), Finish(Expire(c, a), a));
    Kept(Finish(Expire(c, a), a), CheckTcpSession(c, a).0);
  }

  // ---------------------------------------------------------------- runs

  lemma StepNumbers(c: Conn, step: Step)
    requires NumbersInv(c) && LifeInv(c)
    ensures NumbersInv(Apply(c, step))
  {
    hide NumbersInv, LifeInv, HandleTcp, CheckTcpSocket, MonitorTcpSession, CheckTcpSession, WriteRst;
    match step
    case FromApp(pkt, now, ok) => PacketNumbers(c, pkt, now, ok);
    case OnSocket(ev) => if c.s.open { SocketNumbers(c, ev); }
    case OnMonitor(m) => MonitorNumbers(c, m);
    case OnAge(a) => if a.maxSessions > 0 { AgeNumbers(c, a); }
    case Disallow => RstNumbers(c);
  }

  lemma {:induction false} RunNumbers(c: Conn, steps: seq<Step>)
    requires NumbersInv(c) && LifeInv(c)
    ensures NumbersInv(Run(c, steps))
    decreases |steps|
  {
    hide NumbersInv, LifeInv, Apply;
    if steps != [] {
      StepNumbers(c, steps[0]);
      StepLife(c, steps[0]);
      RunNumbers(Apply(c, steps[0]), steps[1..]);
    }
  }

  lemma FreshNumbers(c: Conn)
    requires Fresh(c)
    ensures NumbersInv(c)
  {
    assert c.s.forward != [] ==> c.s.forward[1..] == [];
  }

  /** From the registration of any SYN. */
  lemma StartNumbers(c: Conn, allowed: bool, steps: seq<Step>)
    requires Fresh(c)
    ensures NumbersInv(Run(Start(c, allowed), steps)) && LifeInv(Run(Start(c, allowed), steps))
  {
    hide WriteRst, Run, NumbersInv;
    FreshNumbers(c);
    RstNumbers(c);
    RstLife(c);
    RunNumbers(Start(c, allowed), steps);
    SessionLife(Start(c, allowed), steps);
  }
}
