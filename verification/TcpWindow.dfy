/** The window of the app: what it advertised last, from the packets alone, and what that allows to be sent. */
module TcpWindow {
  import opened Serial
  import opened TcpModel
  import opened TcpFlow

  // ---------------------------------------------------------------- the window the app advertised

  /** The window field of a packet on a connection whose window scale is `scale`, section 2.2 of RFC 7323. */
  function Offered(pkt: InPacket, scale: nat): nat {
    pkt.window * Pow2(scale)
  }

  /** A packet that counts: it is not urgent, and the session has not ended. */
  predicate Counts(c: Conn, step: Step) {
    step.FromApp? && !step.pkt.urg && c.s.state != Closing && c.s.state != Close
  }

  /** The window advertised last in a run, `before` it was `window`. */
  function Advertised(c: Conn, steps: seq<Step>, scale: nat, before: nat): nat
    decreases |steps|
  {
    if steps == [] then before
    else
      var now := if Counts(c, steps[0]) then Offered(steps[0].pkt, scale) else before;
      Advertised(Apply(c, steps[0]), steps[1..], scale, now)
  }

  /** The largest window advertised in it, or before. */
  function Largest(c: Conn, steps: seq<Step>, scale: nat, before: nat): nat
    decreases |steps|
  {
    if steps == [] then before
    else
      var now := if Counts(c, steps[0]) && Offered(steps[0].pkt, scale) > before then Offered(steps[0].pkt, scale)
                 else before;
      Largest(Apply(c, steps[0]), steps[1..], scale, now)
  }

  /** Nothing that concerns the window moved. */
  predicate SameWindow(c: Conn, d: Conn) {
    && d.s.sendWindow == c.s.sendWindow && d.h.maxWindow == c.h.maxWindow && d.s.sendScale == c.s.sendScale
  }

  lemma FinWindow(c: Conn, ok: bool)
    ensures SameWindow(c, HandleFin(c, ok))
  {
    hide Plus, Minus, WriteAck;
    AckWindow(c, ok);
    AckWindow(CountFin(c), ok);
  }

  lemma AckWindow(c: Conn, ok: bool)
    ensures SameWindow(c, WriteAck(c, ok))
  {
    hide Minus;
  }

  lemma RstWindow(c: Conn)
    ensures SameWindow(c, WriteRst(c))
  {
    hide Plus, Minus;
  }

  lemma FlagsWindow(c: Conn, pkt: InPacket, ok: bool)
    ensures SameWindow(c, HandleFlags(c, pkt, ok))
  {
    hide Plus, CompareU32, WriteRst, HandleFin;
    RstWindow(c);
    FinWindow(c, ok);
  }

  lemma PacketWindow(c: Conn, pkt: InPacket, now: int, ok: bool)
    requires c.s.sendScale <= MAX_SCALE
    ensures var d, w := HandleTcp(c, pkt, now, ok), Offered(pkt, c.s.sendScale);
            if Counts(c, FromApp(pkt, now, ok)) then
              && d.s.sendScale == c.s.sendScale && d.s.sendWindow == w
              && d.h.maxWindow == if w > c.h.maxWindow then w else c.h.maxWindow
            else SameWindow(c, d)
  {
    hide Insert, CompareU32, Scaled, Pow2, WriteRst, HandleFlags;
    ScaledFits(pkt.window, c.s.sendScale);
    RstWindow(c);
    var d := Refresh(c, pkt, now);
    RstWindow(d);
    FlagsWindow(if pkt.data != [] then QueueTcp(d, pkt) else d, pkt, ok);
  }

  lemma {:induction false} ForwardWindow(c: Conn, free: nat, sends: seq<SendResult>, fwd: bool)
    ensures SameWindow(c, Forward(c, free, sends, fwd).0)
    decreases |sends|
  {
    hide WriteRst, TakeHead;
    RstWindow(c);
    if HeadReady(c.s, free) && sends != [] && sends[0].Sent? {
      var offered := |c.s.forward[0].data| - c.s.forward[0].sent;
      var n := if sends[0].count <= offered then sends[0].count else offered;
      TakeSend(c, n);
      if n == offered { ForwardWindow(TakeHead(c, n), free - n, sends[1..], true); }
    }
  }

  lemma EofWindow(c: Conn, ok: bool)
    ensures SameWindow(c, HandleEof(c, ok))
  {
    hide Plus, Minus, WriteRst;
    RstWindow(c);
  }

  lemma ReadWindow(c: Conn, ev: SocketEvent)
    ensures SameWindow(c, ReadSocket(c, ev))
  {
    hide GetSendWindow, HandleEof, WriteRst, Plus, Minus, Passed;
    var t := c.(s := c.s.(time := ev.now));
    RstWindow(t);
    EofWindow(t, ev.writeOk);
  }

  lemma ConnectedWindow(c: Conn, ev: SocketEvent)
    ensures SameWindow(c, Connected(c, ev))
  {
    hide Plus, Minus;
  }

  lemma SocketWindow(c: Conn, ev: SocketEvent)
    ensures SameWindow(c, CheckTcpSocket(c, ev))
  {
    hide Forward, Acknowledge, ReadSocket, Connected, WriteRst;
    RstWindow(c.(s := c.s.(time := ev.now)));
    ConnectedWindow(c, ev);
    ForwardWindow(c, ev.free, ev.sends, false);
    var (d, fwd) := if ev.writable then Forward(c, ev.free, ev.sends, false) else (c, false);
    AcknowledgeSend(d, fwd, ev);
    ReadWindow(Acknowledge(d, fwd, ev), ev);
  }

  lemma StepWindow(c: Conn, step: Step)
    requires c.s.sendScale <= MAX_SCALE
    ensures var d := Apply(c, step);
            if Counts(c, step) then
              var w := Offered(step.pkt, c.s.sendScale);
              && d.s.sendScale == c.s.sendScale && d.s.sendWindow == w
              && d.h.maxWindow == if w > c.h.maxWindow then w else c.h.maxWindow
            else SameWindow(c, d)
  {
    hide HandleTcp, CheckTcpSocket, MonitorTcpSession, CheckTcpSession, WriteRst, Pow2;
    match step
    case FromApp(pkt, now, ok) => PacketWindow(c, pkt, now, ok);
    case OnSocket(ev) => SocketWindow(c, ev);
    case OnMonitor(m) => MonitorSend(c, m);
    case OnAge(a) => if a.maxSessions > 0 { AgeSend(c, a); }
    case Disallow => RstWindow(c);
  }

  lemma {:induction false} RunWindow(c: Conn, steps: seq<Step>)
    requires c.s.sendScale <= MAX_SCALE
    ensures var d := Run(c, steps);
            && d.s.sendScale == c.s.sendScale
            && d.s.sendWindow == Advertised(c, steps, c.s.sendScale, c.s.sendWindow)
            && d.h.maxWindow == Largest(c, steps, c.s.sendScale, c.h.maxWindow)
    decreases |steps|
  {
    hide Apply, Pow2, Counts;
    if steps != [] {
      StepWindow(c, steps[0]);
      RunWindow(Apply(c, steps[0]), steps[1..]);
    }
  }

  /** Over every run from the registration of a SYN with a window scale of at most 14: the send window is the one
      the app advertised last, and what is in flight never exceeds the largest it advertised. */
  lemma WindowAdvertised(pkt: InPacket, dns: bool, isn: u32, mss: u16, scale: nat, free: u32, now: int, allowed: bool,
                         steps: seq<Step>)
    requires scale <= MAX_SCALE
    ensures var c := NewSession(pkt, dns, isn, mss, scale, free, now, allowed);
            var d := Run(c, steps);
            && d.s.sendWindow == Advertised(c, steps, scale, Offered(pkt, scale))
            && d.h.maxWindow == Largest(c, steps, scale, Offered(pkt, scale))
            && (UsualRun(c, steps) && Flowing(d.s.state) ==>
                  Minus(d.s.localSeq, d.s.acked) <= Largest(c, steps, scale, Offered(pkt, scale)))
  {
    hide GetReceiveWindow, Scaled, Pow2, WriteRst, Run, UsualRun, Minus, Advertised, Largest;
    var c := NewSession(pkt, dns, isn, mss, scale, free, now, allowed);
    ScaledFits(pkt.window, scale);
    RstWindow(NewSession(pkt, dns, isn, mss, scale, free, now, true));
    RunWindow(c, steps);
    if UsualRun(c, steps) {
      NewSessionFlow(pkt, dns, isn, mss, scale, free, now, allowed);
      RunFlow(c, steps);
    }
  }

  /** And a step that sends data or a FIN leaves in flight at most the window advertised last. */
  lemma SentWithinAdvertised(pkt: InPacket, dns: bool, isn: u32, mss: u16, scale: nat, free: u32, now: int,
                             allowed: bool, steps: seq<Step>, step: Step)
    requires scale <= MAX_SCALE
    requires var c := NewSession(pkt, dns, isn, mss, scale, free, now, allowed);
             UsualRun(c, steps) && Usual(Run(c, steps), step)
    ensures var c := NewSession(pkt, dns, isn, mss, scale, free, now, allowed);
            var d := Run(c, steps);
            var e := Apply(d, step);
            e.s.localSeq != d.s.localSeq && d.s.state != Listen ==>
              Minus(e.s.localSeq, e.s.acked) <= Advertised(c, steps, scale, Offered(pkt, scale))
  {
    hide NewSession, Pow2, Run, Apply, UsualRun, Usual, Minus, Advertised, FlowInv;
    var c := NewSession(pkt, dns, isn, mss, scale, free, now, allowed);
    WindowAdvertised(pkt, dns, isn, mss, scale, free, now, allowed, steps);
    NewSessionFlow(pkt, dns, isn, mss, scale, free, now, allowed);
    RunFlow(c, steps);
    StepFlow(Run(c, steps), step);
  }

  // ---------------------------------------------------------------- what the windows grant

  /** The exact grant: the window advertised less what is in flight and 40 bytes for every packet since the app was
      last heard and the next one, and 0x10000 less when the counters have wrapped. */
  lemma SendWindowExact(s: Tcp)
    requires InFlight(s) <= MAX_WINDOW
    ensures var wrapped := if s.localSeq < s.acked then 0x1_0000 else 0;
            var grant := s.sendWindow - InFlight(s) - 40 * (s.unconfirmed + 1) - wrapped;
            GetSendWindow(s) == if grant > 0 then grant else 0
  {
  }

  /** So once `local_seq` has wrapped and `acked` has not, a window that is not scaled up is closed whatever its size,
      until the app acknowledges past the wrap. */
  lemma WrapCloses(s: Tcp)
    requires InFlight(s) <= MAX_WINDOW && s.localSeq < s.acked
    ensures GetSendWindow(s) == 0 <==> s.sendWindow <= InFlight(s) + 40 * (s.unconfirmed + 1) + 0x1_0000
  {
    SendWindowExact(s);
  }

  /** The exact receive window, with nothing overdrawn: the free space of the socket, at most what the window field
      can say, less the bytes pending. */
  lemma ReceiveWindowExact(s: Tcp, free: u32)
    requires s.recvScale <= MAX_SCALE && HeadOnly(s.forward) && Overdraw(s.forward) == 0
    requires Pending(s.forward) < M - 0x1_0000
    ensures var top := 0xFFFF * Pow2(s.recvScale);
            var room := (if free < top then free else top) - Pending(s.forward);
            GetReceiveWindow(s, free) == if room > 0 then room else 0
  {
    hide Scaled, ToForward, Pow2, Pending, Overdraw, HeadOnly;
    ScaledFits(0xFFFF, s.recvScale);
    ToForwardSum(s.forward);
  }
}
