/** When a session was last used, and how many packets the app has not been heard about. */
module TcpActivity {
  import opened Serial
  import opened TcpModel
  import TcpWatch
  import TcpWindow

  // ---------------------------------------------------------------- the last use

  /** A send() succeeds in this event. */
  predicate Forwards(c: Conn, ev: SocketEvent) {
    ev.writable && TcpWatch.Ready(c.s, ev.free) && ev.sends != [] && ev.sends[0].Sent?
  }

  /** The receive window, closed before, is open after forwarding. */
  predicate Reopens(c: Conn, ev: SocketEvent) {
    var d := if ev.writable then Forward(c, ev.free, ev.sends, false).0 else c;
    c.s.recvWindow == 0 && GetReceiveWindow(d.s, ev.free2) > 0
  }

  /** recv() is called: the session relays still, the event is readable, and the app's window is open. */
  predicate Receives(c: Conn, ev: SocketEvent) {
    var (d, fwd) := if ev.writable then Forward(c, ev.free, ev.sends, false) else (c, false);
    var e := Acknowledge(d, fwd, ev);
    TcpWatch.Relaying(e.s) && ev.readable && GetSendWindow(e.s) > 0
  }

  /** The steps that use a session: packets of the app other than SYNs, an error, the connection, an ACK of forwarded
      bytes or of a window opened again, a call of recv(). */
  predicate Uses(c: Conn, step: Step) {
    match step
    case FromApp(pkt, _, _) => !pkt.urg && !pkt.syn && c.s.state != Closing && c.s.state != Close
    case OnSocket(ev) =>
      c.s.open && (ev.err
                   || (c.s.state == Listen && ev.writable && ev.writeOk)
                   || (c.s.state != Listen && (((Forwards(c, ev) || Reopens(c, ev)) && ev.ackOk) || Receives(c, ev))))
    case _ => false
  }

  function MomentOf(step: Step): int {
    match step
    case FromApp(_, now, _) => now
    case OnSocket(ev) => ev.now
    case _ => 0
  }

  lemma RstTime(c: Conn)
    ensures WriteRst(c).s.time == c.s.time
  {
    hide Plus, Minus;
  }

  lemma AckTime(c: Conn, ok: bool)
    ensures WriteAck(c, ok).s.time == c.s.time
  {
    hide Minus;
  }

  lemma FinTime(c: Conn, ok: bool)
    ensures HandleFin(c, ok).s.time == c.s.time
  {
    hide Plus, WriteAck;
    AckTime(CountFin(c), ok);
  }

  lemma PacketTime(c: Conn, pkt: InPacket, now: int, ok: bool)
    ensures HandleTcp(c, pkt, now, ok).s.time == if Uses(c, FromApp(pkt, now, ok)) then now else c.s.time
  {
    hide Scaled, Insert, CompareU32, HandleFlags, WriteRst;
    RstTime(c);
    var d := Refresh(c, pkt, now);
    RstTime(d);
    FlagsTime(if pkt.data != [] then QueueTcp(d, pkt) else d, pkt, ok);
  }

  lemma FlagsTime(c: Conn, pkt: InPacket, ok: bool)
    ensures HandleFlags(c, pkt, ok).s.time == c.s.time
  {
    hide Plus, CompareU32, WriteRst, HandleFin;
    RstTime(c);
    FinTime(c, ok);
  }

  lemma {:induction false} ForwardTime(c: Conn, free: nat, sends: seq<SendResult>, fwd: bool)
    ensures var (d, f) := Forward(c, free, sends, fwd);
            && d.s.time == c.s.time && d.s.recvWindow == c.s.recvWindow
            && (f <==> fwd || (TcpWatch.Ready(c.s, free) && sends != [] && sends[0].Sent?))
    decreases |sends|
  {
    hide WriteRst, TakeHead, HeadReady;
    TcpWatch.ReadyHead(c.s, free);
    RstTime(c);
    RstKeeps(c);
    if HeadReady(c.s, free) && sends != [] && sends[0].Sent? {
      var offered := |c.s.forward[0].data| - c.s.forward[0].sent;
      var n := if sends[0].count <= offered then sends[0].count else offered;
      TakeTime(c, n);
      if n == offered { ForwardTime(TakeHead(c, n), free - n, sends[1..], true); }
    }
  }

  lemma RstKeeps(c: Conn)
    ensures WriteRst(c).s.recvWindow == c.s.recvWindow
  {
    hide Plus, Minus;
  }

  lemma TakeTime(c: Conn, n: nat)
    requires c.s.forward != [] && c.s.forward[0].sent + n <= |c.s.forward[0].data|
    ensures TakeHead(c, n).s.time == c.s.time && TakeHead(c, n).s.recvWindow == c.s.recvWindow
  {
    hide Plus;
  }

  lemma AcknowledgeTime(c: Conn, fwd: bool, ev: SocketEvent)
    ensures var reopened := c.s.recvWindow == 0 && GetReceiveWindow(c.s, ev.free2) > 0;
            Acknowledge(c, fwd, ev).s.time == if (fwd || reopened) && ev.ackOk then ev.now else c.s.time
    ensures Acknowledge(c, fwd, ev).s.recvWindow == GetReceiveWindow(c.s, ev.free2)
  {
    hide GetReceiveWindow, Plus, Minus;
  }

  lemma ReadTime(c: Conn, ev: SocketEvent)
    ensures ReadSocket(c, ev).s.time
            == if TcpWatch.Relaying(c.s) && ev.readable && GetSendWindow(c.s) > 0 then ev.now else c.s.time
  {
    hide GetSendWindow, WriteRst, Plus, Minus, Passed, HandleEof;
    var t := c.(s := c.s.(time := ev.now));
    RstTime(t);
    EofTime(t, ev.writeOk);
  }

  lemma EofTime(c: Conn, ok: bool)
    ensures HandleEof(c, ok).s.time == c.s.time
  {
    hide Plus, Minus, WriteRst;
    RstTime(c);
  }

  lemma SocketTime(c: Conn, ev: SocketEvent)
    requires c.s.open
    ensures CheckTcpSocket(c, ev).s.time == if Uses(c, OnSocket(ev)) then ev.now else c.s.time
  {
    hide Forward, Acknowledge, ReadSocket, WriteRst, GetReceiveWindow, GetSendWindow, TcpWatch.Ready;
    RstTime(c.(s := c.s.(time := ev.now)));
    if !ev.err && c.s.state == Listen {
      ConnectedTime(c, ev);
    } else if !ev.err {
      ForwardTime(c, ev.free, ev.sends, false);
      var (d, fwd) := if ev.writable then Forward(c, ev.free, ev.sends, false) else (c, false);
      AcknowledgeTime(d, fwd, ev);
      ReadTime(Acknowledge(d, fwd, ev), ev);
    }
  }

  lemma ConnectedTime(c: Conn, ev: SocketEvent)
    ensures Connected(c, ev).s.time == if ev.writeOk then ev.now else c.s.time
  {
    hide Plus, Minus;
  }

  /** A step sets the time of a session to its moment exactly if it uses it; ageing sets it when it closes it. */
  lemma TimeIsLastUse(c: Conn, step: Step)
    requires !step.OnAge?
    ensures Apply(c, step).s.time == if Uses(c, step) then MomentOf(step) else c.s.time
  {
    hide HandleTcp, CheckTcpSocket, GetSendWindow, HeadReady, WriteRst, Minus, Uses;
    match step
    case FromApp(pkt, now, ok) => PacketTime(c, pkt, now, ok);
    case OnSocket(ev) => if c.s.open { SocketTime(c, ev); } else { Unused(c, step); }
    case OnMonitor(_) => Unused(c, step);
    case Disallow => RstTime(c); Unused(c, step);
  }

  lemma Unused(c: Conn, step: Step)
    requires step.OnMonitor? || step.Disallow? || (step.OnSocket? && !c.s.open)
    ensures !Uses(c, step)
  {
  }

  // ---------------------------------------------------------------- packets the app has not answered

  /** Data packets written since the app's last packet, in 16 bits. */
  lemma UnansweredCounted(c: Conn, step: Step)
    ensures Apply(c, step).s.unconfirmed ==
              if TcpWindow.Counts(c, step) then 0
              else if Apply(c, step).h.written > c.h.written then (c.s.unconfirmed + 1) % 0x1_0000
              else c.s.unconfirmed
  {
    hide HandleTcp, CheckTcpSocket, MonitorTcpSession, CheckTcpSession, Terminate, TcpWindow.Counts;
    match step
    case FromApp(pkt, now, ok) => PacketUnanswered(c, pkt, now, ok);
    case OnSocket(ev) => NoPacketCounts(c, step); if c.s.open { SocketUnanswered(c, ev); }
    case OnMonitor(m) => NoPacketCounts(c, step); MonitorUnanswered(c, m);
    case OnAge(a) => NoPacketCounts(c, step); if a.maxSessions > 0 { AgeUnanswered(c, a); }
    case Disallow => NoPacketCounts(c, step); TerminateUnanswered(c);
  }

  lemma NoPacketCounts(c: Conn, step: Step)
    requires !step.FromApp?
    ensures !TcpWindow.Counts(c, step)
  {
  }

  lemma MonitorUnanswered(c: Conn, m: MonitorInput)
    ensures Same(c, MonitorTcpSession(c, m).0)
  {
    hide GetSendWindow, HeadReady, GetReceiveWindow;
  }

  lemma AgeUnanswered(c: Conn, a: AgeInput)
    requires a.maxSessions > 0
    ensures Same(c, CheckTcpSession(c, a).0)
  {
    hide Expire, Finish;
    var d := Expire(c, a);
    ExpireUnanswered(c, a);
    FinishUnanswered(d, a);
  }

  lemma ExpireUnanswered(c: Conn, a: AgeInput)
    requires a.maxSessions > 0
    ensures Same(c, Expire(c, a))
  {
    hide WriteRst, GetTcpTimeout;
    RstUnanswered(c);
  }

  lemma FinishUnanswered(c: Conn, a: AgeInput)
    ensures Same(c, Finish(c, a))
  {
  }

  lemma TerminateUnanswered(c: Conn)
    ensures Same(c, Terminate(c))
  {
    hide WriteRst;
    RstUnanswered(c);
  }

  predicate Same(c: Conn, d: Conn) {
    d.s.unconfirmed == c.s.unconfirmed && d.h.written == c.h.written
  }

  lemma RstUnanswered(c: Conn)
    ensures Same(c, WriteRst(c))
  {
    hide Plus, Minus;
  }

  lemma PacketUnanswered(c: Conn, pkt: InPacket, now: int, ok: bool)
    ensures var d := HandleTcp(c, pkt, now, ok);
            d.h.written == c.h.written
            && d.s.unconfirmed == if TcpWindow.Counts(c, FromApp(pkt, now, ok)) then 0 else c.s.unconfirmed
  {
    hide Scaled, Insert, CompareU32, HandleFlags, WriteRst;
    RstUnanswered(c);
    var d := Refresh(c, pkt, now);
    RstUnanswered(d);
    FlagsUnanswered(if pkt.data != [] then QueueTcp(d, pkt) else d, pkt, ok);
  }

  lemma FlagsUnanswered(c: Conn, pkt: InPacket, ok: bool)
    ensures Same(c, HandleFlags(c, pkt, ok))
  {
    hide Plus, CompareU32, WriteRst, HandleFin;
    RstUnanswered(c);
    FinUnanswered(c, ok);
  }

  lemma FinUnanswered(c: Conn, ok: bool)
    ensures Same(c, HandleFin(c, ok))
  {
    hide Plus, WriteAck;
    AckUnanswered(c, ok);
    AckUnanswered(CountFin(c), ok);
  }

  lemma AckUnanswered(c: Conn, ok: bool)
    ensures Same(c, WriteAck(c, ok))
  {
    hide Minus;
  }

  lemma {:induction false} ForwardUnanswered(c: Conn, free: nat, sends: seq<SendResult>, fwd: bool)
    ensures Same(c, Forward(c, free, sends, fwd).0)
    decreases |sends|
  {
    hide WriteRst, TakeHead;
    RstUnanswered(c);
    if HeadReady(c.s, free) && sends != [] && sends[0].Sent? {
      var offered := |c.s.forward[0].data| - c.s.forward[0].sent;
      var n := if sends[0].count <= offered then sends[0].count else offered;
      TakeUnanswered(c, n);
      if n == offered { ForwardUnanswered(TakeHead(c, n), free - n, sends[1..], true); }
    }
  }

  lemma TakeUnanswered(c: Conn, n: nat)
    requires c.s.forward != [] && c.s.forward[0].sent + n <= |c.s.forward[0].data|
    ensures Same(c, TakeHead(c, n))
  {
    hide Plus;
  }

  lemma AcknowledgeUnanswered(c: Conn, fwd: bool, ev: SocketEvent)
    ensures Same(c, Acknowledge(c, fwd, ev))
  {
    hide GetReceiveWindow, Plus, Minus;
  }

  lemma ReadUnanswered(c: Conn, ev: SocketEvent)
    ensures var d := ReadSocket(c, ev);
            Same(c, d) || (d.h.written > c.h.written && d.s.unconfirmed == (c.s.unconfirmed + 1) % 0x1_0000)
  {
    hide GetSendWindow, WriteRst, Plus, Minus, Passed, HandleEof;
    var t := c.(s := c.s.(time := ev.now));
    RstUnanswered(t);
    EofUnanswered(t, ev.writeOk);
  }

  lemma EofUnanswered(c: Conn, ok: bool)
    ensures Same(c, HandleEof(c, ok))
  {
    hide Plus, Minus, WriteRst;
    RstUnanswered(c);
  }

  lemma ConnectedUnanswered(c: Conn, ev: SocketEvent)
    ensures Same(c, Connected(c, ev))
  {
    hide Plus, Minus;
  }

  lemma SocketUnanswered(c: Conn, ev: SocketEvent)
    ensures var d := CheckTcpSocket(c, ev);
            Same(c, d) || (d.h.written > c.h.written && d.s.unconfirmed == (c.s.unconfirmed + 1) % 0x1_0000)
  {
    hide Forward, Acknowledge, ReadSocket, Connected, WriteRst;
    RstUnanswered(c.(s := c.s.(time := ev.now)));
    ConnectedUnanswered(c, ev);
    ForwardUnanswered(c, ev.free, ev.sends, false);
    var (d, fwd) := if ev.writable then Forward(c, ev.free, ev.sends, false) else (c, false);
    AcknowledgeUnanswered(d, fwd, ev);
    ReadUnanswered(Acknowledge(d, fwd, ev), ev);
  }
}
