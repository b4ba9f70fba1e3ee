/** What a session answers, packet by packet: sections 3.5 to 3.10 of RFC 9293 as seen by the app. */
module TcpConversation {
  import opened Serial
  import opened TcpModel
  import DnsMessage

  /** The packets written to the tun device so far. */
  function Wire(c: Conn): (w: seq<Packet>)
    ensures |w| == |c.h.packets|
  {
    seq(|c.h.packets|, i requires 0 <= i < |c.h.packets| => c.h.packets[i].packet)
  }

  function SynAck(seqNo: u32, ackNo: u32): Packet { Packet(seqNo, ackNo, [], true, true, false, false) }

  function Ack(seqNo: u32, ackNo: u32, data: seq<u8>): Packet { Packet(seqNo, ackNo, data, false, true, false, false) }

  function FinAck(seqNo: u32, ackNo: u32): Packet { Packet(seqNo, ackNo, [], false, true, true, false) }

  /** A reset acknowledges a SYN that has no connection yet, and nothing else. */
  function Rst(s: Tcp): Packet {
    if s.state == Listen then Packet(s.localSeq, Plus(s.remoteSeq, 1), [], false, true, false, true)
    else Packet(s.localSeq, 0, [], false, false, false, true)
  }

  /** A packet with the ACK flag alone. */
  predicate PlainAck(pkt: InPacket) {
    pkt.ack && !pkt.syn && !pkt.fin && !pkt.rst && !pkt.urg && pkt.data == []
  }

  /** A FIN with an acknowledgement, and no data. */
  predicate PlainFin(pkt: InPacket) {
    pkt.ack && pkt.fin && !pkt.syn && !pkt.rst && !pkt.urg && pkt.data == []
  }

  lemma MinusNone(a: u32)
    ensures Minus(a, 0) == a && Minus(Plus(a, 1), 0) == Plus(a, 1)
  {
  }

  lemma WireGrows(c: Conn, d: Conn, e: Emission)
    requires d.h.packets == c.h.packets + [e]
    ensures Wire(d) == Wire(c) + [e.packet]
  {
  }

  // ---------------------------------------------------------------- opening

  /** A socket that connects answers the SYN. */
  lemma SynAnswered(c: Conn, ev: SocketEvent)
    requires c.s.state == Listen && !ev.err && ev.writable && ev.writeOk
    ensures var d := CheckTcpSocket(c, ev);
            && d.s == c.s.(state := SynRecv, time := ev.now, localSeq := Plus(c.s.localSeq, 1),
                           remoteSeq := Plus(c.s.remoteSeq, 1))
            && Wire(d) == Wire(c) + [SynAck(c.s.localSeq, Plus(c.s.remoteSeq, 1))]
  {
    hide Plus;
    MinusNone(c.s.remoteSeq);
    var d := CheckTcpSocket(c, ev);
    WireGrows(c, d, d.h.packets[|c.h.packets|]);
  }

  /** The ACK of the SYN-ACK establishes the connection, and nothing is answered. */
  lemma HandshakeCompleted(c: Conn, pkt: InPacket, now: int, ok: bool)
    requires c.s.state == SynRecv && PlainAck(pkt) && pkt.ackNo == c.s.localSeq
    ensures var d := HandleTcp(c, pkt, now, ok);
            && d.s == c.s.(state := Established, time := now, acked := pkt.ackNo, unconfirmed := 0,
                           sendWindow := Scaled(pkt.window, c.s.sendScale))
            && d.h.packets == c.h.packets && d.h.accepted == c.h.accepted && d.h.read == c.h.read
            && d.h.closes == c.h.closes && d.h.reports == c.h.reports
  {
    hide Scaled;
  }

  // ---------------------------------------------------------------- data

  /** The app's data is queued and not answered yet. */
  lemma DataQueued(c: Conn, pkt: InPacket, now: int, ok: bool)
    requires c.s.state == Established && c.s.open && c.s.forward == [] && pkt.seqNo == c.s.remoteSeq
    requires pkt == InPacket(pkt.seqNo, c.s.localSeq, pkt.window, false, true, false, false, pkt.psh, false, pkt.data)
    requires pkt.data != []
    ensures var d := HandleTcp(c, pkt, now, ok);
            && d.s == c.s.(time := now, acked := c.s.localSeq, unconfirmed := 0,
                           sendWindow := Scaled(pkt.window, c.s.sendScale),
                           forward := [Segment(pkt.seqNo, pkt.data, 0, pkt.psh)])
            && d.h.packets == c.h.packets && d.h.accepted == c.h.accepted && d.h.read == c.h.read
            && d.h.closes == c.h.closes && d.h.reports == c.h.reports
  {
    hide Scaled;
  }

  /** A socket that takes it gets it, and the app its acknowledgement. */
  lemma DataForwarded(c: Conn, ev: SocketEvent)
    requires c.s.state == Established && |c.s.forward| == 1 && c.s.forward[0].start == c.s.remoteSeq
    requires c.s.forward[0].sent == 0 && |c.s.forward[0].data| < ev.free
    requires !ev.err && ev.writable && !ev.readable && ev.sends == [Sent(|c.s.forward[0].data|)] && ev.ackOk
    ensures var d, a := CheckTcpSocket(c, ev), c.s.forward[0].data;
            && d.s.state == Established && d.s.open == c.s.open && d.s.forward == [] && d.s.time == ev.now
            && d.s.remoteSeq == Plus(c.s.remoteSeq, |a|) && d.s.localSeq == c.s.localSeq
            && d.s.sent == c.s.sent + |a| && d.s.received == c.s.received && d.s.acked == c.s.acked
            && d.s.sendWindow == c.s.sendWindow && d.s.sendScale == c.s.sendScale && d.s.mss == c.s.mss
            && d.s.unconfirmed == c.s.unconfirmed && d.s.dns == c.s.dns
            && d.s.recvWindow == GetReceiveWindow(TakeHead(c, |a|).s, ev.free2)
            && d.h.accepted == c.h.accepted + a && d.h.read == c.h.read && d.h.closes == c.h.closes
            && d.h.reports == c.h.reports
            && Wire(d) == Wire(c) + [Ack(c.s.localSeq, Plus(c.s.remoteSeq, |a|), [])]
  {
    hide Plus, GetReceiveWindow;
    var a := c.s.forward[0].data;
    var t := TakeHead(c, |a|);
    assert ev.sends[1..] == [] && Forward(t, ev.free - |a|, [], true) == (t, true);
    assert Forward(c, ev.free, ev.sends, false) == (t, true);
    MinusNone(t.s.remoteSeq);
    var d := CheckTcpSocket(c, ev);
    WireGrows(c, d, d.h.packets[|c.h.packets|]);
  }

  /** What the server sends goes to the app at once: as much as its window and its segment size allow. */
  lemma DataRelayed(c: Conn, ev: SocketEvent)
    requires c.s.state == Established && GetSendWindow(c.s) > 0 && c.s.mss > 0
    requires !ev.err && !ev.writable && ev.readable && ev.writeOk && ev.recv.Received? && ev.recv.data != []
    requires c.s.recvWindow > 0 && !c.s.dns
    ensures var d := CheckTcpSocket(c, ev);
            var n := Least(|ev.recv.data|, Least(GetSendWindow(c.s), c.s.mss));
            var s := ev.recv.data[..n];
            && d.s == c.s.(time := ev.now, localSeq := Plus(c.s.localSeq, n), received := c.s.received + n,
                           unconfirmed := (c.s.unconfirmed + 1) % 0x1_0000,
                           recvWindow := GetReceiveWindow(c.s, ev.free2))
            && d.h.read == c.h.read + s && d.h.accepted == c.h.accepted && d.h.closes == c.h.closes
            && d.h.reports == c.h.reports && Wire(d) == Wire(c) + [Ack(c.s.localSeq, c.s.remoteSeq, s)]
  {
    hide GetReceiveWindow, GetSendWindow, HandleData, Wire;
    WindowStays(c, GetReceiveWindow(c.s, ev.free2), ev.now);
    var n := Least(|ev.recv.data|, Least(GetSendWindow(c.s), c.s.mss));
    var t := c.(s := c.s.(time := ev.now, recvWindow := GetReceiveWindow(c.s, ev.free2)));
    assert ev.recv.data[..|ev.recv.data|] == ev.recv.data;
    SameWire(c, t);
    DataWritten(t, ev.recv.data[..n], ev.verdict);
  }

  lemma DataWritten(c: Conn, data: Chunk, v: DnsMessage.Verdict)
    requires !c.s.dns
    ensures var d := HandleData(c, data, v, true);
            && d.s == c.s.(localSeq := Plus(c.s.localSeq, |data|), received := c.s.received + |data|,
                           unconfirmed := (c.s.unconfirmed + 1) % 0x1_0000)
            && d.h.read == c.h.read + data && d.h.accepted == c.h.accepted && d.h.closes == c.h.closes
            && d.h.reports == c.h.reports && Wire(d) == Wire(c) + [Ack(c.s.localSeq, c.s.remoteSeq, data)]
  {
    hide Plus;
    MinusNone(c.s.remoteSeq);
    var d := HandleData(c, data, v, true);
    WireGrows(c, d, d.h.packets[|c.h.packets|]);
  }

  function Least(a: nat, b: nat): nat { if a < b then a else b }

  lemma WindowStays(c: Conn, recvWindow: u32, now: int)
    ensures GetSendWindow(c.s.(recvWindow := recvWindow)) == GetSendWindow(c.s)
    ensures GetSendWindow(c.s.(time := now)) == GetSendWindow(c.s)
  {
  }

  // ---------------------------------------------------------------- closing

  /** The app closes: its FIN is acknowledged when all its data was forwarded. */
  lemma FinAnswered(c: Conn, pkt: InPacket, now: int)
    requires c.s.state == Established && c.s.forward == [] && PlainFin(pkt) && pkt.ackNo == c.s.localSeq
    ensures var d := HandleTcp(c, pkt, now, true);
            && d.s == c.s.(state := CloseWait, time := now, unconfirmed := 0, remoteSeq := Plus(c.s.remoteSeq, 1),
                           sendWindow := Scaled(pkt.window, c.s.sendScale))
            && d.h.accepted == c.h.accepted && d.h.read == c.h.read && d.h.closes == c.h.closes
            && d.h.reports == c.h.reports
            && Wire(d) == Wire(c) + [Ack(c.s.localSeq, Plus(c.s.remoteSeq, 1), [])]
  {
    hide Scaled, Plus;
    MinusNone(c.s.remoteSeq);
    var d := HandleTcp(c, pkt, now, true);
    WireGrows(c, d, d.h.packets[|c.h.packets|]);
  }

  /** The server closes: FIN to the app, or a reset while data of the app is queued; the socket is closed. */
  lemma EofAnswered(c: Conn, ev: SocketEvent)
    requires (c.s.state == Established || c.s.state == CloseWait) && GetSendWindow(c.s) > 0 && c.s.recvWindow > 0
    requires !ev.err && !ev.writable && ev.readable && ev.writeOk && ev.recv == EndOfFile
    ensures var d := CheckTcpSocket(c, ev);
            && !d.s.open && d.h.closes == c.h.closes + 1 && d.s.time == ev.now && d.s.remoteSeq == c.s.remoteSeq
            && d.s.sent == c.s.sent && d.s.received == c.s.received && d.s.forward == c.s.forward
            && d.h.accepted == c.h.accepted && d.h.read == c.h.read && d.h.reports == c.h.reports
            && if c.s.forward == [] then
                 && d.s.state == (if c.s.state == Established then FinWait1 else LastAck)
                 && d.s.localSeq == Plus(c.s.localSeq, 1)
                 && Wire(d) == Wire(c) + [FinAck(c.s.localSeq, c.s.remoteSeq)]
               else
                 d.s.state == Closing && d.s.localSeq == c.s.localSeq && Wire(d) == Wire(c) + [Rst(c.s)]
  {
    hide GetReceiveWindow, GetSendWindow, Plus;
    MinusNone(c.s.remoteSeq);
    WindowStays(c, GetReceiveWindow(c.s, ev.free2), ev.now);
    var d := CheckTcpSocket(c, ev);
    WireGrows(c, d, d.h.packets[|c.h.packets|]);
  }

  /** Both sides have closed: the app's ACK of the FIN, or its FIN, ends the session. */
  lemma LastAnswered(c: Conn, pkt: InPacket, now: int)
    requires pkt.ackNo == c.s.localSeq
    ensures c.s.state == LastAck && PlainAck(pkt) ==>
              var d := HandleTcp(c, pkt, now, true);
              && d.s.state == Closing && d.s.time == now && d.h.packets == c.h.packets && d.s.open == c.s.open
              && d.s.sent == c.s.sent && d.s.received == c.s.received && d.h.reports == c.h.reports
              && d.h.accepted == c.h.accepted && d.h.read == c.h.read && d.h.closes == c.h.closes
    ensures c.s.state == FinWait1 && PlainFin(pkt) ==>
              var d := HandleTcp(c, pkt, now, true);
              && d.s.state == Close && d.s.time == now && d.s.open == c.s.open
              && d.s.sent == c.s.sent && d.s.received == c.s.received && d.h.reports == c.h.reports
              && d.h.accepted == c.h.accepted && d.h.read == c.h.read && d.h.closes == c.h.closes
              && Wire(d) == Wire(c) + [Ack(c.s.localSeq, Plus(c.s.remoteSeq, 1), [])]
  {
    hide Scaled, Plus;
    MinusNone(c.s.remoteSeq);
    var d := HandleTcp(c, pkt, now, true);
    if c.s.state == FinWait1 && PlainFin(pkt) { WireGrows(c, d, d.h.packets[|c.h.packets|]); }
  }

  // ---------------------------------------------------------------- resets

  /** Exactly one packet more, a reset, and the session ends unless it was closed. */
  predicate ResetNow(c: Conn, d: Conn) {
    && Wire(d) == Wire(c) + [Rst(c.s)] && d.s.state == (if c.s.state == Close then Close else Closing)
    && d.s.open == c.s.open && d.h.accepted == c.h.accepted && d.h.read == c.h.read
  }

  lemma RstSent(c: Conn)
    ensures ResetNow(c, WriteRst(c))
  {
    hide Plus;
    MinusNone(c.s.remoteSeq);
    WireGrows(c, WriteRst(c), WriteRst(c).h.packets[|c.h.packets|]);
  }

  /** The app is reset for every packet after the end, for data that cannot be taken any more, and for
      acknowledging what was never sent. */
  lemma PacketReset(c: Conn, pkt: InPacket, now: int, ok: bool)
    requires !pkt.urg
    requires || c.s.state == Closing || c.s.state == Close
             || (pkt.data != [] && (!c.s.open || c.s.state == CloseWait))
             || (pkt.data == [] && pkt.ack && !pkt.rst && pkt.ackNo != c.s.localSeq
                 && Plus(pkt.ackNo, 1) != c.s.localSeq && CompareU32(pkt.ackNo, c.s.localSeq) > 0)
    ensures ResetNow(c, HandleTcp(c, pkt, now, ok))
  {
    hide Scaled, Plus, CompareU32, WriteRst, Wire, Insert;
    RstSent(c);
    var d := Refresh(c, pkt, now);
    RstSent(d);
    assert Wire(d) == Wire(c) by { SameWire(c, d); }
  }

  lemma SameWire(c: Conn, d: Conn)
    requires d.h.packets == c.h.packets
    ensures Wire(d) == Wire(c)
  {
  }

  /** And for an error of the socket, of send() and of recv(), and when the rules do not allow it any more. */
  lemma EventReset(c: Conn, ev: SocketEvent)
    ensures ev.err ==> ResetNow(c, CheckTcpSocket(c, ev))
    ensures c.s.state != Closing && c.s.state != Close ==> ResetNow(c, Terminate(c))
  {
    hide WriteRst, Wire, Forward, Acknowledge, ReadSocket, Connected;
    var t := c.(s := c.s.(time := ev.now));
    RstSent(c);
    RstSent(t);
    SameWire(c, t);
  }

  /** What is ignored: urgent packets, a repeated SYN, keep-alives, acknowledgements seen before. */
  lemma PacketIgnored(c: Conn, pkt: InPacket, now: int, ok: bool)
    requires || pkt.urg
             || (c.s.state != Closing && c.s.state != Close && !pkt.rst && pkt.data == []
                 && ((pkt.syn && (!pkt.ack || pkt.ackNo == c.s.localSeq))
                     || (pkt.ack && pkt.ackNo != c.s.localSeq && Plus(pkt.ackNo, 1) == c.s.localSeq)
                     || (pkt.ack && pkt.ackNo != c.s.localSeq && CompareU32(pkt.ackNo, c.s.localSeq) < 0
                         && CompareU32(pkt.ackNo, c.s.acked) <= 0)))
    ensures var d := HandleTcp(c, pkt, now, ok);
            && d.s.state == c.s.state && d.h.packets == c.h.packets && d.s.forward == c.s.forward
            && d.s.acked == c.s.acked && d.s.localSeq == c.s.localSeq && d.s.remoteSeq == c.s.remoteSeq
            && (pkt.urg ==> d == c)
  {
    hide Scaled, Plus, CompareU32;
  }

  /** The app's own reset ends the session without an answer, data of its packet filed. */
  lemma ResetTaken(c: Conn, pkt: InPacket, now: int, ok: bool)
    requires pkt.rst && !pkt.urg && c.s.state != Closing && c.s.state != Close && pkt.data == []
    ensures var d := HandleTcp(c, pkt, now, ok); d.s.state == Closing && d.h.packets == c.h.packets
  {
    hide Scaled;
  }

  // ---------------------------------------------------------------- a whole conversation

  /** An app's packet with an acknowledgement. */
  function FromPeer(seqNo: u32, ackNo: u32, window: u16, fin: bool, data: Chunk): Step {
    FromApp(InPacket(seqNo, ackNo, window, false, true, fin, false, false, false, data), 1, true)
  }

  function SocketStep(readable: bool, writable: bool, free: u32, sends: seq<SendResult>, recv: RecvResult): Step {
    var v := DnsMessage.Verdict(false, 0);
    OnSocket(SocketEvent(false, readable, writable, free, sends, free, recv, v, true, true, 2))
  }

  /** Where a conversation stands: state, next numbers, what each side got, the packets to the app, and that all of it
      is accounted for. */
  predicate At(c: Conn, state: State, x: u32, y: u32, a: seq<u8>, b: seq<u8>, wire: seq<Packet>) {
    && c.s.state == state && c.s.remoteSeq == x && c.s.localSeq == y && c.h.accepted == a && c.h.read == b
    && Wire(c) == wire && c.s.sent == |a| && c.s.received == |b| && c.h.reports == []
    && c.s.open == (state != LastAck && state != Close) && c.h.closes == (if c.s.open then 0 else 1)
    && c.s.sendScale == 0 && !c.s.dns && c.s.recvWindow > 0
  }

  lemma WindowUnscaled(window: u16)
    ensures Scaled(window, 0) == window
  {
  }

  lemma WindowOpen(s: Tcp, free: u32)
    requires s.forward == [] && s.recvScale == 0 && 0 < free <= 0xFFFF
    ensures GetReceiveWindow(s, free) == free
  {
    WindowUnscaled(0xFFFF);
    hide Scaled;
  }

  lemma Opening(c: Conn, x: u32, y: u32, window: u16, free: u32)
    requires At(c, Listen, x, y, [], [], []) && c.s.forward == [] && 0 < free <= 0xFFFF
    ensures var x1, y1 := Plus(x, 1), Plus(y, 1);
            var d := Apply(Apply(c, SocketStep(false, true, free, [], RecvRetry)), FromPeer(x1, y1, window, false, []));
            && At(d, Established, x1, y1, [], [], [SynAck(y, x1)]) && d.s.forward == [] && d.s.mss == c.s.mss
            && d.s.acked == y1 && d.s.unconfirmed == 0 && d.s.sendWindow == window && d.s.recvScale == c.s.recvScale
  {
    hide Plus, Wire, Scaled, CheckTcpSocket, HandleTcp;
    var step := SocketStep(false, true, free, [], RecvRetry);
    var e := CheckTcpSocket(c, step.ev);
    SynAnswered(c, step.ev);
    SynAnsweredQuietly(c, step.ev);
    var pkt := FromPeer(Plus(x, 1), Plus(y, 1), window, false, []).pkt;
    HandshakeCompleted(e, pkt, 1, true);
    SameWire(e, HandleTcp(e, pkt, 1, true));
    WindowUnscaled(window);
  }

  lemma SynAnsweredQuietly(c: Conn, ev: SocketEvent)
    requires c.s.state == Listen && !ev.err
    ensures var d := CheckTcpSocket(c, ev);
            && d.h.accepted == c.h.accepted && d.h.read == c.h.read && d.h.closes == c.h.closes
            && d.h.reports == c.h.reports
  {
    hide Plus, Minus;
  }

  /** The app's data goes to the server. */
  lemma Upload(c: Conn, x: u32, y: u32, window: u16, free: u32, a: Chunk, wire: seq<Packet>)
    requires At(c, Established, x, y, [], [], wire) && c.s.forward == [] && c.s.recvScale == 0
    requires 0 < |a| < free <= 0xFFFF
    ensures var e := Apply(c, FromPeer(x, y, window, false, a));
            var d := Apply(e, SocketStep(false, true, free, [Sent(|a|)], RecvRetry));
            && At(d, Established, Plus(x, |a|), y, a, [], wire + [Ack(y, Plus(x, |a|), [])]) && d.s.forward == []
            && d.s.mss == c.s.mss && d.s.acked == y && d.s.unconfirmed == 0 && d.s.sendWindow == window
            && d.s.recvScale == 0
  {
    hide Plus, Wire, Scaled, CheckTcpSocket, HandleTcp, GetReceiveWindow;
    var pkt := FromPeer(x, y, window, false, a).pkt;
    var e := HandleTcp(c, pkt, 1, true);
    DataQueued(c, pkt, 1, true);
    SameWire(c, e);
    WindowUnscaled(window);
    var step := SocketStep(false, true, free, [Sent(|a|)], RecvRetry);
    DataForwarded(e, step.ev);
    TakenWindow(e, |a|, free);
    ScaleKept(e, step.ev);
  }

  lemma TakenWindow(c: Conn, n: nat, free: u32)
    requires |c.s.forward| == 1 && c.s.forward[0].sent == 0 && n == |c.s.forward[0].data|
    requires c.s.recvScale == 0 && 0 < free <= 0xFFFF
    ensures GetReceiveWindow(TakeHead(c, n).s, free) == free
  {
    hide Plus, GetReceiveWindow;
    WindowOpen(TakeHead(c, n).s, free);
  }

  lemma ScaleKept(c: Conn, ev: SocketEvent)
    requires c.s.state == Established && |c.s.forward| == 1 && c.s.forward[0].start == c.s.remoteSeq
    requires c.s.forward[0].sent == 0 && |c.s.forward[0].data| < ev.free
    requires !ev.err && ev.writable && !ev.readable && ev.sends == [Sent(|c.s.forward[0].data|)] && ev.ackOk
    ensures CheckTcpSocket(c, ev).s.recvScale == c.s.recvScale
  {
    hide Plus, GetReceiveWindow;
    var t := TakeHead(c, |c.s.forward[0].data|);
    assert ev.sends[1..] == [] && Forward(t, ev.free - |c.s.forward[0].data|, [], true) == (t, true);
    assert Forward(c, ev.free, ev.sends, false) == (t, true);
  }

  /** The server's data goes to the app, in one piece if its window and segment size allow. */
  lemma Download(c: Conn, x: u32, y: u32, free: u32, a: seq<u8>, b: Chunk, wire: seq<Packet>)
    requires At(c, Established, x, y, a, [], wire) && c.s.forward == [] && c.s.recvScale == 0 && c.s.acked == y
    requires c.s.unconfirmed == 0 && 0 < |b| <= c.s.mss && |b| + 40 <= c.s.sendWindow && 0 < free <= 0xFFFF
    ensures var d := Apply(c, SocketStep(true, false, free, [], Received(b)));
            && At(d, Established, x, Plus(y, |b|), a, b, wire + [Ack(y, x, b)]) && d.s.forward == [] && d.s.acked == y
  {
    hide Plus, Wire, CheckTcpSocket, GetReceiveWindow, GetSendWindow;
    var step := SocketStep(true, false, free, [], Received(b));
    WindowGranted(c.s);
    DataRelayed(c, step.ev);
    WindowOpen(c.s, free);
    assert b[..|b|] == b;
  }

  lemma WindowGranted(s: Tcp)
    requires s.acked == s.localSeq && s.unconfirmed == 0 && s.sendWindow >= 40
    ensures GetSendWindow(s) == s.sendWindow - 40
  {
  }

  /** The app closes, the server closes, the app acknowledges: the session is closed and accounted for. */
  lemma Ending(c: Conn, x: u32, y: u32, window: u16, free: u32, a: seq<u8>, b: seq<u8>, wire: seq<Packet>)
    requires At(c, Established, x, y, a, b, wire) && c.s.forward == [] && c.s.acked <= y && y - c.s.acked + 40 < window
    requires a != [] || b != []
    ensures var x1, y1 := Plus(x, 1), Plus(y, 1);
            var d := Apply(c, FromPeer(x, y, window, true, []));
            var e := Apply(d, SocketStep(true, false, free, [], EndOfFile));
            var f := Apply(e, FromPeer(x1, y1, window, false, []));
            var g := Apply(f, OnAge(AgeInput(3, 4, 0, 1)));
            && Wire(g) == wire + [Ack(y, x1, [])] + [FinAck(y, x1)] && g.s.state == Close && !g.s.open
            && g.h.accepted == a && g.h.read == b && g.h.closes == 1 && g.h.reports == [(|a|, |b|)]
  {
    hide Plus, Wire, Scaled, CheckTcpSocket, HandleTcp, GetSendWindow, CheckTcpSession;
    var pkt := FromPeer(x, y, window, true, []).pkt;
    var d := HandleTcp(c, pkt, 1, true);
    FinAnswered(c, pkt, 1);
    WindowUnscaled(window);
    var step := SocketStep(true, false, free, [], EndOfFile);
    WindowLeft(d.s);
    var e := CheckTcpSocket(d, step.ev);
    EofAnswered(d, step.ev);
    var last := FromPeer(Plus(x, 1), Plus(y, 1), window, false, []).pkt;
    var f := HandleTcp(e, last, 1, true);
    LastAnswered(e, last, 1);
    SameWire(e, f);
    var g := CheckTcpSession(f, AgeInput(3, 4, 0, 1)).0;
    ClosedQuietly(f, AgeInput(3, 4, 0, 1));
    SameWire(f, g);
  }

  lemma WindowLeft(s: Tcp)
    requires s.acked <= s.localSeq && s.localSeq - s.acked + 40 < s.sendWindow <= 0xFFFF && s.unconfirmed == 0
    ensures GetSendWindow(s) > 0
  {
  }

  lemma ClosedQuietly(c: Conn, a: AgeInput)
    requires c.s.state == Closing && a.maxSessions > 0 && (c.s.sent > 0 || c.s.received > 0)
    ensures var d := CheckTcpSession(c, a).0;
            && d.s.state == Close && !d.s.open && d.h.packets == c.h.packets && d.h.accepted == c.h.accepted
            && d.h.read == c.h.read && d.h.closes == c.h.closes + (if c.s.open then 1 else 0)
            && d.h.reports == c.h.reports + [(c.s.sent, c.s.received)]
  {
    hide GetTcpTimeout;
  }

  /** The app connects with number `x`, sends `a`, is sent `b` and closes; the server closes; the session is aged. */
  function Steps(x: u32, y: u32, window: u16, free: u32, a: Chunk, b: Chunk): seq<Step> {
    var x1, y1 := Plus(x, 1), Plus(y, 1);
    var x2, y2 := Plus(x1, |a|), Plus(y1, |b|);
    [SocketStep(false, true, free, [], RecvRetry), FromPeer(x1, y1, window, false, []),
     FromPeer(x1, y1, window, false, a),
     SocketStep(false, true, free, [Sent(|a|)], RecvRetry), SocketStep(true, false, free, [], Received(b)),
     FromPeer(x2, y2, window, true, []), SocketStep(true, false, free, [], EndOfFile),
     FromPeer(Plus(x2, 1), Plus(y2, 1), window, false, []), OnAge(AgeInput(3, 4, 0, 1))]
  }

  lemma RunTwo(c: Conn, steps: seq<Step>)
    requires |steps| >= 2
    ensures Run(c, steps) == Run(Apply(Apply(c, steps[0]), steps[1]), steps[2..])
  {
    hide Apply;
    assert steps[1..][1..] == steps[2..];
  }

  lemma RunOne(c: Conn, steps: seq<Step>)
    requires |steps| >= 1
    ensures Run(c, steps) == Run(Apply(c, steps[0]), steps[1..])
  {
    hide Apply;
  }

  /** For all numbers, windows and data that fit: the server gets what the app sent, the app what the server sent, each
      byte once; the app sees a SYN-ACK, an ACK of its data, the data, an ACK of its FIN and a FIN; the socket is closed
      once and every byte is reported.  The numbers toward the app do not wrap: `TcpWindow.WrapCloses`. */
  lemma WholeConversation(x: u32, y: u32, window: u16, free: u32, mss: u16, a: Chunk, b: Chunk)
    requires 0 < |a| < free <= 0xFFFF && 0 < |b| <= mss && |b| + 40 < window && Plus(y, 1) + |b| < M
    ensures var syn := InPacket(x, 0, window, true, false, false, false, false, false, []);
            var d := Run(NewSession(syn, false, y, mss, 0, free, 0, true), Steps(x, y, window, free, a, b));
            var x1, y1 := Plus(x, 1), Plus(y, 1);
            var x2, y2 := Plus(x1, |a|), Plus(y1, |b|);
            && d.h.accepted == a && d.h.read == b && d.s.state == Close && !d.s.open && d.h.closes == 1
            && d.h.reports == [(|a|, |b|)]
            && Wire(d) == [SynAck(y, x1), Ack(y1, x2, []), Ack(y1, x2, b), Ack(y2, Plus(x2, 1), []),
                           FinAck(y2, Plus(x2, 1))]
  {
    hide Apply, Run, Plus, Wire, GetReceiveWindow, Scaled, Minus, NewSession, SocketStep, FromPeer;
    var syn := InPacket(x, 0, window, true, false, false, false, false, false, []);
    var steps := Steps(x, y, window, free, a, b);
    var x1, y1 := Plus(x, 1), Plus(y, 1);
    var x2, y2 := Plus(x1, |a|), Plus(y1, |b|);
    var c0 := NewSession(syn, false, y, mss, 0, free, 0, true);
    Registers(syn, y, mss, free);
    Opening(c0, x, y, window, free);
    RunTwo(c0, steps);
    var c1 := Apply(Apply(c0, steps[0]), steps[1]);
    Upload(c1, x1, y1, window, free, a, [SynAck(y, x1)]);
    RunTwo(c1, steps[2..]);
    var c2 := Apply(Apply(c1, steps[2]), steps[3]);
    Download(c2, x2, y1, free, a, b, [SynAck(y, x1)] + [Ack(y1, x2, [])]);
    RunOne(c2, steps[4..]);
    var c3 := Apply(c2, steps[4]);
    Unwrapped(y1, |b|);
    Ending(c3, x2, y2, window, free, a, b, [SynAck(y, x1)] + [Ack(y1, x2, [])] + [Ack(y1, x2, b)]);
    RunTwo(c3, steps[5..]);
    var c4 := Apply(Apply(c3, steps[5]), steps[6]);
    RunTwo(c4, steps[7..]);
    var c5 := Apply(Apply(c4, steps[7]), steps[8]);
    RunNone(c5, steps[9..]);
  }

  lemma RunNone(c: Conn, steps: seq<Step>)
    requires steps == []
    ensures Run(c, steps) == c
  {
  }

  lemma Unwrapped(y: u32, n: nat)
    requires y + n < M
    ensures Plus(y, n) == y + n
  {
  }

  lemma Registers(syn: InPacket, y: u32, mss: u16, free: u32)
    requires syn.data == [] && 0 < free <= 0xFFFF
    ensures var c := NewSession(syn, false, y, mss, 0, free, 0, true);
            At(c, Listen, syn.seqNo, y, [], [], []) && c.s.forward == [] && c.s.mss == mss && c.s.recvScale == 0
  {
    hide GetReceiveWindow, Scaled;
    var c := NewSession(syn, false, y, mss, 0, free, 0, true);
    WindowOpen(c.s, free);
  }
}
