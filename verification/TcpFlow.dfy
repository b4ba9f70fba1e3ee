/** Flow control toward the app: `acked`, `local_seq` and the advertised send window. */
module TcpFlow {
  import opened Serial
  import opened TcpModel
  import DnsMessage

  const MAX_WINDOW := 0x4000_0000  // 2^30, section 2.3 of RFC 7323

  /** Sequence numbers sent to the app and not yet acknowledged. */
  function InFlight(s: Tcp): u32 {
    Minus(s.localSeq, s.acked)
  }

  /** The states after the handshake that still send or wait for acknowledgement. */
  predicate Flowing(state: State) {
    state == Established || state == CloseWait || state == FinWait1 || state == LastAck
  }

  ghost predicate FlowInv(c: Conn) {
    && c.s.sendScale <= MAX_SCALE
    && c.s.sendWindow <= c.h.maxWindow <= MAX_WINDOW
    && (Flowing(c.s.state) ==> InFlight(c.s) <= c.h.maxWindow)
  }

  lemma {:induction false} Pow2Mono(a: nat, b: nat)
    requires a <= b
    ensures Pow2(a) <= Pow2(b)
  {
    if a < b { Pow2Mono(a, b - 1); }
  }

  lemma Pow2Values()
    ensures Pow2(14) == 0x4000
  {
    assert Pow2(4) == 16;
    assert Pow2(8) == 256;
    assert Pow2(12) == 4096;
  }

  lemma MulMono(a: nat, b: nat, m: nat, n: nat)
    requires a <= m && b <= n
    ensures a * b <= m * n
  {
    assert a * b <= a * n <= m * n;
  }

  lemma ScaledFits(window: u16, scale: nat)
    requires scale <= MAX_SCALE
    ensures Scaled(window, scale) == window * Pow2(scale) <= MAX_WINDOW
  {
    hide Pow2;
    Pow2Mono(scale, 14);
    Pow2Values();
    MulMono(window, Pow2(scale), 0xFFFF, 0x4000);
    U32Small(window * Pow2(scale));
    hide U32;
  }

  /** Whatever `get_send_window` grants fits between what is in flight and the advertised window, with
      room for a header; the wrong wrap constant only makes the grant smaller. */
  lemma SendWindowFits(s: Tcp)
    requires InFlight(s) <= MAX_WINDOW
    ensures GetSendWindow(s) > 0 ==> InFlight(s) + 40 + GetSendWindow(s) <= s.sendWindow
    ensures s.localSeq < s.acked && GetSendWindow(s) > 0 ==>
              InFlight(s) + 0x1_0000 + 40 + GetSendWindow(s) <= s.sendWindow
  {
  }

  /** The acknowledgement number `handle_tcp` leaves behind for an ACK that is not RST, SYN or FIN. */
  function NextAcked(s: Tcp, ackNo: u32): u32 {
    if ackNo == s.localSeq then ackNo
    else if Plus(ackNo, 1) == s.localSeq then s.acked
    else if CompareU32(ackNo, s.localSeq) < 0 && CompareU32(ackNo, s.acked) > 0 then ackNo
    else s.acked
  }

  /** The one ACK in all of sequence space that `compare_u32` misjudges. */
  predicate OddAck(s: Tcp, ackNo: u32) {
    s.localSeq == 0 && s.acked == 0xFFFF_FFFF && ackNo == 0x8000_0000
  }

  /** For every ACK number at all, old, new, future or forged, `acked` stays between where it was and
      `local_seq`, save for exactly one combination, in which it jumps back by almost 2^31. */
  lemma AckedOnlyAdvances(s: Tcp, ackNo: u32)
    requires InFlight(s) <= MAX_WINDOW
    ensures Minus(NextAcked(s, ackNo), s.acked) <= InFlight(s) <==> !OddAck(s, ackNo)
    ensures !OddAck(s, ackNo) ==>
              Minus(s.localSeq, NextAcked(s, ackNo)) == InFlight(s) - Minus(NextAcked(s, ackNo), s.acked)
  {
  }

  /** So says the code of every state after the handshake. */
  lemma AckedIsNext(c: Conn, pkt: InPacket, ok: bool)
    requires Flowing(c.s.state) && pkt.ack && !pkt.rst && !pkt.syn && !pkt.fin
    ensures HandleFlags(c, pkt, ok).s.acked == NextAcked(c.s, pkt.ackNo)
  {
    hide Plus, Minus, CompareU32;
  }

  /** A packet that is not the misjudged ACK. */
  ghost predicate Usual(c: Conn, step: Step) {
    step.FromApp? && step.pkt.ack ==> !OddAck(c.s, step.pkt.ackNo)
  }

  /** Nothing on the sending side moved and no sending state was entered. */
  ghost predicate SendSideKept(c: Conn, d: Conn) {
    && d.s.localSeq == c.s.localSeq && d.s.acked == c.s.acked
    && d.s.sendWindow == c.s.sendWindow && d.s.sendScale == c.s.sendScale && d.h.maxWindow == c.h.maxWindow
    && (Flowing(d.s.state) ==> Flowing(c.s.state))
  }

  lemma RstSend(c: Conn)
    ensures SendSideKept(c, WriteRst(c))
  {
    hide Plus, Minus;
  }

  lemma AckSend(c: Conn, ok: bool)
    ensures SendSideKept(c, WriteAck(c, ok))
    ensures WriteAck(c, ok).s.state == if ok then c.s.state else Closing
  {
    hide Plus, Minus;
  }

  lemma FinSend(c: Conn, ok: bool)
    ensures SendSideKept(c, HandleFin(c, ok))
  {
    hide Plus, WriteAck;
    AckSend(CountFin(c), ok);
  }

  lemma FlagsFlow(c: Conn, pkt: InPacket, ok: bool)
    requires FlowInv(c) && (pkt.ack ==> !OddAck(c.s, pkt.ackNo))
    ensures FlowInv(HandleFlags(c, pkt, ok)) && HandleFlags(c, pkt, ok).s.localSeq == c.s.localSeq
  {
    hide Plus, Minus, CompareU32, WriteRst, HandleFin;
    RstSend(c);
    FinSend(c, ok);
    if Flowing(c.s.state) {
      AckedOnlyAdvances(c.s, pkt.ackNo);
      MinusBounds(c.s.localSeq, c.s.acked, NextAcked(c.s, pkt.ackNo));
    }
    SelfMinus(c.s.localSeq);
  }

  lemma SelfMinus(a: u32)
    ensures Minus(a, a) == 0
  {
  }

  lemma MinusBounds(a: u32, b: u32, x: u32)
    ensures 0 <= Minus(a, b) && 0 <= Minus(x, b)
  {
  }

  lemma PacketFlow(c: Conn, pkt: InPacket, now: int, ok: bool)
    requires FlowInv(c) && (pkt.ack ==> !OddAck(c.s, pkt.ackNo))
    ensures FlowInv(HandleTcp(c, pkt, now, ok)) && HandleTcp(c, pkt, now, ok).s.localSeq == c.s.localSeq
  {
    hide Minus, CompareU32, Insert, Scaled, WriteRst, HandleFlags;
    ScaledFits(pkt.window, c.s.sendScale);
    RstSend(c);
    var d := Refresh(c, pkt, now);
    RstSend(d);
    FlagsFlow(if pkt.data != [] then QueueTcp(d, pkt) else d, pkt, ok);
  }

  lemma TakeSend(c: Conn, n: nat)
    requires c.s.forward != [] && c.s.forward[0].sent + n <= |c.s.forward[0].data|
    ensures SendSideKept(c, TakeHead(c, n))
  {
    hide Plus;
  }

  lemma {:induction false} ForwardSend(c: Conn, free: nat, sends: seq<SendResult>, fwd: bool)
    ensures SendSideKept(c, Forward(c, free, sends, fwd).0)
    decreases |sends|
  {
    hide WriteRst, TakeHead;
    if HeadReady(c.s, free) && sends != [] {
      RstSend(c);
      if sends[0].Sent? {
        var offered := |c.s.forward[0].data| - c.s.forward[0].sent;
        var n := if sends[0].count <= offered then sends[0].count else offered;
        TakeSend(c, n);
        if n == offered {
          ForwardSend(TakeHead(c, n), free - n, sends[1..], true);
        }
      }
    }
  }

  lemma AcknowledgeSend(c: Conn, fwd: bool, ev: SocketEvent)
    ensures SendSideKept(c, Acknowledge(c, fwd, ev))
  {
    hide GetReceiveWindow, Plus, Minus;
  }

  lemma PlusInFlight(localSeq: u32, acked: u32, n: nat)
    requires Minus(localSeq, acked) + n < M
    ensures n < M && Minus(Plus(localSeq, n), acked) == Minus(localSeq, acked) + n
  {
  }

  ghost predicate SentWithin(c: Conn, d: Conn) {
    && FlowInv(d) && d.s.sendWindow == c.s.sendWindow
    && (d.s.localSeq != c.s.localSeq ==> InFlight(d.s) <= c.s.sendWindow)
  }

  lemma EofFlow(c: Conn, ok: bool)
    requires FlowInv(c) && Flowing(c.s.state) && GetSendWindow(c.s) > 0
    ensures SentWithin(c, HandleEof(c, ok))
  {
    hide GetSendWindow, Minus, Plus, WriteRst;
    RstSend(c);
    SendWindowFits(c.s);
    PlusInFlight(c.s.localSeq, c.s.acked, 1);
  }

  lemma DataFlow(c: Conn, data: Chunk, v: DnsMessage.Verdict, ok: bool)
    requires FlowInv(c) && Flowing(c.s.state) && 0 < |data| <= GetSendWindow(c.s)
    ensures SentWithin(c, HandleData(c, data, v, ok))
  {
    hide GetSendWindow, Minus, Plus;
    SendWindowFits(c.s);
    PlusInFlight(c.s.localSeq, c.s.acked, |data|);
  }

  /** A read puts at most what the window grants in flight: data, or the FIN. */
  lemma ReadFlow(c: Conn, ev: SocketEvent)
    requires FlowInv(c)
    ensures SentWithin(c, ReadSocket(c, ev))
  {
    hide Minus, Plus, WriteRst, HandleEof, HandleData;
    var t := c.(s := c.s.(time := ev.now));
    RstSend(t);
    var window := GetSendWindow(c.s);
    var size := if window > c.s.mss then c.s.mss else window;
    if (c.s.state == Established || c.s.state == CloseWait) && window > 0 {
      EofFlow(t, ev.writeOk);
      if ev.recv.Received? {
        var got := if |ev.recv.data| <= size then ev.recv.data else ev.recv.data[..size];
        if got != [] { DataFlow(t, got, ev.verdict, ev.writeOk); }
      }
    }
  }

  lemma SocketFlow(c: Conn, ev: SocketEvent)
    requires FlowInv(c)
    ensures var d := CheckTcpSocket(c, ev);
            FlowInv(d) && d.s.sendWindow == c.s.sendWindow
            && (d.s.localSeq != c.s.localSeq && c.s.state != Listen ==> InFlight(d.s) <= c.s.sendWindow)
  {
    hide Forward, Acknowledge, ReadSocket, WriteRst, Plus, Minus;
    RstSend(c.(s := c.s.(time := ev.now)));
    if !ev.err && c.s.state != Listen {
      ForwardSend(c, ev.free, ev.sends, false);
      var (d, fwd) := if ev.writable then Forward(c, ev.free, ev.sends, false) else (c, false);
      AcknowledgeSend(d, fwd, ev);
      ReadFlow(Acknowledge(d, fwd, ev), ev);
    }
  }

  lemma MonitorSend(c: Conn, m: MonitorInput)
    ensures SendSideKept(c, MonitorTcpSession(c, m).0)
  {
    hide GetSendWindow, Minus, HeadReady;
  }

  lemma AgeSend(c: Conn, a: AgeInput)
    requires a.maxSessions > 0
    ensures SendSideKept(c, CheckTcpSession(c, a).0)
  {
    hide Expire, Finish, Account;
    ExpireSend(c, a);
    FinishSend(Expire(c, a), a);
    AccountSend(Finish(Expire(c, a), a));
  }

  lemma ExpireSend(c: Conn, a: AgeInput)
    requires a.maxSessions > 0
    ensures SendSideKept(c, Expire(c, a))
  {
    hide GetTcpTimeout, WriteRst;
    RstSend(c);
  }

  lemma FinishSend(c: Conn, a: AgeInput)
    ensures SendSideKept(c, Finish(c, a))
  {
  }

  lemma AccountSend(c: Conn)
    ensures SendSideKept(c, Account(c))
  {
  }

  /** One step keeps the invariant; and if it sent data or a FIN, what is then in flight fits the
      window last advertised. */
  lemma StepFlow(c: Conn, step: Step)
    requires FlowInv(c) && Usual(c, step)
    ensures FlowInv(Apply(c, step))
    ensures Apply(c, step).s.localSeq != c.s.localSeq && c.s.state != Listen ==>
              InFlight(Apply(c, step).s) <= c.s.sendWindow == Apply(c, step).s.sendWindow
  {
    hide HandleTcp, CheckTcpSocket, MonitorTcpSession, CheckTcpSession, Minus, WriteRst;
    match step
    case FromApp(pkt, now, ok) => PacketFlow(c, pkt, now, ok);
    case OnSocket(ev) => SocketFlow(c, ev);
    case OnMonitor(m) => MonitorSend(c, m);
    case OnAge(a) => if a.maxSessions > 0 { AgeSend(c, a); }
    case Disallow => RstSend(c);
  }

  ghost predicate UsualRun(c: Conn, steps: seq<Step>)
    decreases |steps|
  {
    steps == [] || (Usual(c, steps[0]) && UsualRun(Apply(c, steps[0]), steps[1..]))
  }

  /** In every run, what is in flight never exceeds the largest window the app advertised in it. */
  lemma {:induction false} RunFlow(c: Conn, steps: seq<Step>)
    requires FlowInv(c) && UsualRun(c, steps)
    ensures FlowInv(Run(c, steps))
    ensures Flowing(Run(c, steps).s.state) ==> InFlight(Run(c, steps).s) <= Run(c, steps).h.maxWindow
    decreases |steps|
  {
    hide Apply, Usual, Minus;
    if steps != [] {
      StepFlow(c, steps[0]);
      RunFlow(Apply(c, steps[0]), steps[1..]);
    }
  }

  lemma NewSessionFlow(pkt: InPacket, dns: bool, isn: u32, mss: u16, scale: nat, free: u32, now: int, allowed: bool)
    requires scale <= MAX_SCALE
    ensures FlowInv(NewSession(pkt, dns, isn, mss, scale, free, now, allowed))
  {
    hide GetReceiveWindow, Scaled;
    ScaledFits(pkt.window, scale);
  }

  // ---------------------------------------------------------------- the receive window

  /** The bytes queued that send() has not taken. */
  function Pending(q: seq<Segment>): nat {
    if q == [] then 0 else (if q[0].sent < |q[0].data| then |q[0].data| - q[0].sent else 0) + Pending(q[1..])
  }

  /** By how much more of the head was sent than it holds. */
  function Overdraw(q: seq<Segment>): nat {
    if q != [] && q[0].sent > |q[0].data| then q[0].sent - |q[0].data| else 0
  }

  /** Only a head is ever partly sent, so only a head can be overdrawn. */
  predicate HeadOnly(q: seq<Segment>) {
    forall i | 1 <= i < |q| :: q[i].sent <= |q[i].data|
  }

  /** The sum in `get_receive_window` before it is cut to 32 bits. */
  function Unsent(q: seq<Segment>): int {
    if q == [] then 0 else |q[0].data| - q[0].sent + Unsent(q[1..])
  }

  lemma {:induction false} ToForwardCounts(q: seq<Segment>)
    ensures ToForward(q) == U32(Unsent(q))
  {
    if q != [] {
      ToForwardCounts(q[1..]);
      CutOnce(|q[0].data| - q[0].sent, Unsent(q[1..]));
    }
  }

  lemma CutOnce(a: int, b: int)
    ensures U32(a + U32(b)) == U32(a + b)
  {
  }

  lemma {:induction false} NothingOverdrawn(q: seq<Segment>)
    requires forall i | 0 <= i < |q| :: q[i].sent <= |q[i].data|
    ensures Unsent(q) == Pending(q)
  {
    if q != [] { NothingOverdrawn(q[1..]); }
  }

  lemma UnsentPending(q: seq<Segment>)
    requires HeadOnly(q)
    ensures Unsent(q) == Pending(q) - Overdraw(q)
  {
    if q != [] {
      forall i | 0 <= i < |q[1..]| ensures q[1..][i].sent <= |q[1..][i].data| {
        assert q[1..][i] == q[i + 1];
      }
      NothingOverdrawn(q[1..]);
    }
  }

  /** The sum as `get_receive_window` sees it: the bytes pending, less what the head is overdrawn, or a
      number near 2^32 if that is more. */
  lemma ToForwardSum(q: seq<Segment>)
    requires HeadOnly(q) && Pending(q) < M - 0x1_0000
    ensures Overdraw(q) < 0x1_0000
    ensures ToForward(q) == if Overdraw(q) <= Pending(q) then Pending(q) - Overdraw(q) else M + Pending(q) - Overdraw(q)
  {
    hide ToForward, Pending, Unsent;
    ToForwardCounts(q);
    UnsentPending(q);
  }

  /** For every queue of less than 2^32 - 2^16 bytes: a positive window and the bytes pending fit the free
      space of the socket, exactly unless the head is overdrawn, by no more than is pending, the window is not
      cut off, and the free space does not happen to hold the excess too.  The scaled window fits 16 bits. */
  lemma ReceiveWindowFits(s: Tcp, free: u32)
    requires s.recvScale <= MAX_SCALE && HeadOnly(s.forward) && Pending(s.forward) < M - 0x1_0000
    ensures var w, p, x := GetReceiveWindow(s, free), Pending(s.forward), Overdraw(s.forward);
            var window := if free > 0xFFFF * Pow2(s.recvScale) then 0xFFFF * Pow2(s.recvScale) else free;
            (w > 0 ==> w + p <= free) <==> !(0 < x <= p < window + x && free < window + x)
    ensures GetReceiveWindow(s, free) / Pow2(s.recvScale) <= 0xFFFF
  {
    hide Scaled, ToForward, Pow2, Pending, Overdraw, HeadOnly;
    ScaledFits(0xFFFF, s.recvScale);
    ToForwardSum(s.forward);
    var w := GetReceiveWindow(s, free);
    QuotientBound(w, Pow2(s.recvScale), 0xFFFF);
  }

  lemma QuotientBound(a: nat, b: nat, q: nat)
    requires b > 0 && a <= q * b
    ensures a / b <= q
  {
    var d := a / b;
    assert d * b <= a && (q + 1) * b == q * b + b;
    if d > q {
      MulMono(q + 1, b, d, b);
    }
  }
}
