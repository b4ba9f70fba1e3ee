/** What monitoring watches a socket for, in terms of what its events would do: no wake-up is lost. */
module TcpWatch {
  import opened Serial
  import opened TcpModel
  import DnsMessage

  /** A writable event with `free` bytes of room whose first send() fails. */
  function FailingWrite(free: u32): SocketEvent {
    SocketEvent(false, false, true, free, [SendFailed], free, RecvRetry, DnsMessage.Verdict(false, 0), true, true, 0)
  }

  /** A readable event whose recv() fails. */
  function FailingRead(): SocketEvent {
    SocketEvent(false, true, false, 0, [], 0, RecvFailed, DnsMessage.Verdict(false, 0), true, true, 0)
  }

  /** A writable event would connect the session, or come to a send(), as its failing shows. */
  predicate Writes(c: Conn, free: u32) {
    var d := CheckTcpSocket(c, FailingWrite(free));
    if c.s.state == Listen then d.s.state == SynRecv else d.s.state == Closing
  }

  /** A readable event would come to a recv(). */
  predicate Reads(c: Conn) {
    CheckTcpSocket(c, FailingRead()).s.state == Closing
  }

  /** Bytes of the app flow both ways. */
  predicate Relaying(s: Tcp) {
    s.state == Established || s.state == CloseWait
  }

  /** The next bytes of the app are at hand, and what is left of their segment is less than the room there is. */
  predicate Ready(s: Tcp, free: nat) {
    s.forward != [] && s.forward[0].start == s.remoteSeq && 0 <= |s.forward[0].data| - s.forward[0].sent < free
  }

  lemma WritesExactly(c: Conn, free: u32)
    requires c.s.state == Listen || Relaying(c.s)
    ensures Writes(c, free) <==> c.s.state == Listen || Ready(c.s, free)
  {
    hide GetReceiveWindow, Plus, Minus, HeadReady, Ready, GetSendWindow;
    var ev := FailingWrite(free);
    ReadyHead(c.s, free);
    assert ev.sends[0] == SendFailed;
  }

  lemma ReadsExactly(c: Conn)
    requires c.s.state == Listen || Relaying(c.s)
    ensures Reads(c) <==> Relaying(c.s) && GetSendWindow(c.s) > 0
  {
    hide GetReceiveWindow, WriteRst, GetSendWindow, WriteAck, Acknowledge;
    if Relaying(c.s) {
      var ev := FailingRead();
      var d := Acknowledge(c, false, ev);
      AcknowledgeQuiet(c, ev);
      RstNow(d.(s := d.s.(time := 0)));
    }
  }

  lemma RstNow(c: Conn)
    requires c.s.state != Close
    ensures WriteRst(c).s.state == Closing
  {
  }

  lemma AcknowledgeQuiet(c: Conn, ev: SocketEvent)
    requires ev.ackOk
    ensures var d := Acknowledge(c, false, ev);
            d.s.state == c.s.state && GetSendWindow(d.s) == GetSendWindow(c.s)
  {
    hide GetReceiveWindow, Minus;
  }

  /** After monitoring an open session that waits for its connection or relays, EPOLLOUT is watched exactly if a
      writable event would connect it or come to a send(), EPOLLIN exactly if a readable one would come to a recv(),
      and a recheck is asked for exactly if the session relays with its window closed or a queue that is not
      watched. */
  lemma NoWakeupLost(c: Conn, m: MonitorInput)
    requires c.s.open && m.epollOk && (c.s.state == Listen || Relaying(c.s))
    ensures var (d, recheck) := MonitorTcpSession(c, m);
            && (d.s.watchOut <==> Writes(c, m.free)) && (d.s.watchIn <==> Reads(c))
            && (recheck <==> Relaying(c.s) && (!Reads(c) || (c.s.forward != [] && !Writes(c, m.free))))
  {
    hide GetSendWindow, HeadReady, Ready, KeepAlive, Writes, Reads;
    WritesExactly(c, m.free);
    ReadsExactly(c);
    ProbeWatches(c, m);
    ReadyHead(c.s, m.free);
  }

  lemma ReadyHead(s: Tcp, free: nat)
    ensures HeadReady(s, free) <==> Ready(s, free)
    ensures Ready(s, free) ==> s.forward != []
  {
  }

  lemma ProbeWatches(c: Conn, m: MonitorInput)
    ensures var d := KeepAlive(c, m);
            && d.s.watchIn == c.s.watchIn && d.s.watchOut == c.s.watchOut
            && d.s.forward == c.s.forward && d.s.open == c.s.open
  {
    hide Minus;
  }

  /** So whatever there is to do for a session that relays is woken up for or looked at again. */
  lemma WokenOrRechecked(c: Conn, m: MonitorInput)
    requires c.s.open && m.epollOk && Relaying(c.s)
    ensures var (d, recheck) := MonitorTcpSession(c, m);
            && (d.s.watchIn || recheck) && (c.s.forward != [] ==> d.s.watchOut || recheck)
  {
    hide MonitorTcpSession, Writes, Reads;
    NoWakeupLost(c, m);
  }

  /** In the other states nothing is watched and nothing rechecked; data queued in SYN_RECV waits for the app's ACK,
      whatever the socket could take. */
  lemma OthersUnwatched(c: Conn, m: MonitorInput)
    requires m.epollOk && c.s.state != Listen && !Relaying(c.s)
    ensures var (d, recheck) := MonitorTcpSession(c, m); !d.s.watchOut && !d.s.watchIn && !recheck && d.h == c.h
  {
    hide GetSendWindow, HeadReady;
  }

  /** A change of what is watched that `epoll_ctl` refuses ends the session; no change is no call. */
  lemma WatchRefused(c: Conn, m: MonitorInput)
    requires !m.epollOk && m.ackOk && (c.s.state == Listen || Relaying(c.s))
    ensures MonitorTcpSession(c, m).0.s.state == Closing <==>
              (Writes(c, m.free) <==> !c.s.watchOut) || (Reads(c) <==> !c.s.watchIn)
  {
    hide GetSendWindow, HeadReady, Ready, Writes, Reads, KeepAlive;
    ReadyHead(c.s, m.free);
    WritesExactly(c, m.free);
    ReadsExactly(c);
    ProbeWatches(c, m);
    ProbeState(c, m);
  }

  lemma ProbeState(c: Conn, m: MonitorInput)
    requires m.ackOk
    ensures KeepAlive(c, m).s.state == c.s.state
  {
    hide Minus;
  }

  /** While the window is closed, and more than 100 ms after the last one, monitoring sends a probe: an ACK of one
      byte less.  Nothing else is sent. */
  lemma ProbesClosedWindow(c: Conn, m: MonitorInput)
    ensures var d := MonitorTcpSession(c, m).0;
            var probe := Relaying(c.s) && !Reads(c) && m.ms - c.s.lastKeepAlive > 100;
            && d.h.packets == c.h.packets + Probes(c, probe)
            && d.s.lastKeepAlive == (if probe then m.ms else c.s.lastKeepAlive)
  {
    hide GetSendWindow, HeadReady, Reads, Minus;
    if Relaying(c.s) { ReadsExactly(c); }
  }

  function Probes(c: Conn, probe: bool): seq<Emission> {
    var p := Packet(c.s.localSeq, Minus(c.s.remoteSeq, 1), [], false, true, false, false);
    if probe then [Emission(p, LocalPos(c.h), RemotePos(c.h) - 1)] else []
  }
}
