/** What a FIN that overtakes data costs: `handle_tcp` does not compare its number with `remote_seq`. */
module TcpFin {
  import opened Serial
  import opened TcpModel
  import opened TcpLife
  import opened TcpOrder
  import opened TcpInvariants

  /** The queue a packet leaves behind, its own data filed or dropped as already forwarded. */
  function Filed(c: Conn, pkt: InPacket): Conn {
    if pkt.data != [] then QueueTcp(c, pkt) else c
  }

  /** Such a FIN is handled after the packet's data has been filed. */
  lemma TakenFin(c: Conn, pkt: InPacket, now: int, ok: bool)
    requires TakesFin(c.s, pkt) && c.s.open == (c.s.state == Established)
    ensures HandleTcp(c, pkt, now, ok) == HandleFin(Filed(Refresh(c, pkt, now), pkt), ok)
  {
    hide Scaled, CompareU32, Insert, HandleFin;
  }

  /** Filing the packet: what the FIN is compared with, and where the queue then ends. */
  lemma FinFiled(c: Conn, pkt: InPacket, now: int, ok: bool, app: App) returns (e: Conn)
    requires Inv(c, app) && Honest(c, pkt, app) && HonestFin(c, pkt, app) && TakesFin(c.s, pkt)
    ensures e == Filed(Refresh(c, pkt, now), pkt) && HandleTcp(c, pkt, now, ok) == HandleFin(e, ok)
    ensures Inv(e, app) && e.s.state == c.s.state && (StreamComplete(e, app) <==> InOrderFin(c, pkt))
    ensures e.s.forward == Filed(c, pkt).s.forward
  {
    hide Inv, Honest, Ahead, CompareU32, Insert, Scaled, U32, HandleTcp, HandleFin, StreamComplete;
    var d := Refresh(c, pkt, now);
    RefreshKeepsInv(c, pkt, now, app);
    HonestRefresh(c, pkt, now, app);
    OpenStates(c, app);
    TakenFin(c, pkt, now, ok);
    e := Filed(d, pkt);
    if pkt.data != [] {
      QueueKeepsInv(d, pkt, app);
      HonestQueue(d, pkt, app);
    }
    SynCounted(e, app);
    FinPlace(e, pkt, app);
  }

  lemma FinInvAfter(c: Conn, ok: bool, app: App)
    requires Inv(c, app) && (c.s.state == Established || c.s.state == FinWait1)
    ensures FinInv(HandleFin(c, ok), app) <==> StreamComplete(c, app)
  {
    OpenStates(c, app);
    hide OutboundInv, Ahead;
  }

  /** For every packet of the app that `handle_tcp` takes a FIN from, the FIN is filed at the end of the
      stream exactly if it follows directly on what was queued. */
  lemma FinFiledIffInOrder(c: Conn, pkt: InPacket, now: int, ok: bool, app: App)
    requires Inv(c, app) && Honest(c, pkt, app) && HonestFin(c, pkt, app) && TakesFin(c.s, pkt)
    ensures FinInv(HandleTcp(c, pkt, now, ok), app) <==> InOrderFin(c, pkt)
  {
    hide Inv, HandleTcp, HandleFin, StreamComplete, FinInv, InOrderFin;
    var e := FinFiled(c, pkt, now, ok, app);
    FinInvAfter(e, ok, app);
  }

  /** The last packet of `d` is an ACK of everything counted. */
  predicate AcksAll(d: Conn) {
    && d.h.packets != []
    && LastPacket(d).packet.ackFlag && LastPacket(d).packet.ackNo == d.s.remoteSeq
    && LastPacket(d).ackPos == RemotePos(d.h)
  }

  function LastPacket(d: Conn): Emission
    requires d.h.packets != []
  {
    d.h.packets[|d.h.packets| - 1]
  }

  /** It covers a byte of the stream that send() has not taken. */
  ghost predicate AcksUnsent(d: Conn, app: App)
    requires AcksAll(d)
  {
    exists k :: |d.h.accepted| <= k < |app.stream| && Covers(LastPacket(d), k)
  }

  /** An ACK with the SYN and the FIN counted covers every byte there is beyond what was forwarded. */
  lemma FinCovers(d: Conn, app: App)
    requires AcksAll(d) && d.h.synSeen == 1 && d.h.finSeen == 1 && |d.h.accepted| == d.h.forwarded
    ensures AcksUnsent(d, app) <==> d.h.forwarded < |app.stream|
  {
    if d.h.forwarded < |app.stream| {
      assert Covers(LastPacket(d), |d.h.accepted|);
    }
  }

  /** For every FIN taken with nothing queued, data of its own that was dropped included: the ACK answering it
      covers a byte that was never accepted exactly if the FIN overtook that byte. */
  lemma EarlyFinAcksUnsent(c: Conn, pkt: InPacket, now: int, ok: bool, app: App)
    requires Inv(c, app) && HonestFin(c, pkt, app) && TakesFin(c.s, pkt) && Filed(c, pkt).s.forward == []
    ensures var d := HandleTcp(c, pkt, now, ok);
            && |d.h.packets| == |c.h.packets| + 1 && AcksAll(d)
            && (AcksUnsent(d, app) <==> !InOrderFin(c, pkt))
  {
    hide Inv, Ahead, CompareU32, Scaled, HonestFin, StreamComplete, AcksUnsent, QueueTcp;
    NothingFiled(c, pkt);
    SynCounted(c, app);
    FinPlace(c, pkt, app);
    OpenStates(c, app);
    var d := HandleTcp(c, pkt, now, ok);
    TakenFin(c, pkt, now, ok);
    CountedFin(Refresh(c, pkt, now), ok);
    EmptyQueueComplete(c, app);
    FinCovers(d, app);
  }

  /** If nothing is queued afterwards, nothing was before, and the packet's data was dropped. */
  lemma NothingFiled(c: Conn, pkt: InPacket)
    requires Filed(c, pkt).s.forward == []
    ensures c.s.forward == [] && Filed(c, pkt) == c
    ensures forall now :: Filed(Refresh(c, pkt, now), pkt) == Refresh(c, pkt, now)
  {
    hide CompareU32, Scaled;
  }

  lemma EmptyQueueComplete(c: Conn, app: App)
    requires Inv(c, app) && c.s.forward == [] && (c.s.state == Established || c.s.state == FinWait1)
    ensures StreamComplete(c, app) <==> c.h.forwarded == |app.stream|
    ensures |c.h.accepted| == c.h.forwarded <= |app.stream|
    ensures c.h.synSeen == 1 && c.h.finSeen == 0
  {
    hide Ahead, FinInv;
  }

  lemma CountedFin(c: Conn, ok: bool)
    requires c.s.forward == [] && (c.s.state == Established || c.s.state == FinWait1)
    ensures var d := HandleFin(c, ok);
            && |d.h.packets| == |c.h.packets| + 1 && AcksAll(d) && d.h.accepted == c.h.accepted
            && d.h.forwarded == c.h.forwarded && d.h.synSeen == c.h.synSeen && d.h.finSeen == c.h.finSeen + 1
  {
    hide Plus;
    MinusNothing(c.s.remoteSeq);
  }

  lemma MinusNothing(a: u32)
    ensures Minus(Plus(a, 1), 0) == Plus(a, 1)
  {
  }

  // ---------------------------------------------------------------- the FIN that waits for the queue

  /** A FIN has been filed behind what is still queued. */
  predicate Owing(c: Conn) {
    c.s.state == CloseWait && c.s.forward != []
  }

  /** The stream offset at which the queue ends. */
  function EndOf(c: Conn): int
    requires c.s.forward != []
  {
    var last := c.s.forward[|c.s.forward| - 1];
    c.h.forwarded + Ahead(last.start, c.s.remoteSeq) + |last.data|
  }

  lemma TakeEnd(c: Conn, n: nat, app: App)
    requires OutboundInv(c, app) && c.s.forward != [] && c.s.forward[0].start == c.s.remoteSeq
    requires c.s.forward[0].sent + n <= |c.s.forward[0].data|
    ensures var d := TakeHead(c, n); if d.s.forward == [] then d.h.forwarded == EndOf(c) else EndOf(d) == EndOf(c)
  {
    hide Ordered, Pieces, Plus, Ahead;
    var q, base := c.s.forward, c.s.remoteSeq;
    AheadOfItself(base);
    if q[0].sent + n == |q[0].data| && |q| > 1 {
      PopShift(q, base, |q| - 1);
    }
  }

  /** The forward loop does not move the end of what is queued. */
  lemma {:induction false} ForwardEnd(c: Conn, free: nat, sends: seq<SendResult>, fwd: bool, app: App)
    requires OutboundInv(c, app) && Owing(c)
    ensures var (d, f) := Forward(c, free, sends, fwd);
            if d.s.forward == [] then d.h.forwarded == EndOf(c) && f else EndOf(d) == EndOf(c)
    decreases |sends|
  {
    hide EndOf, OutboundInv, TakeHead;
    if HeadReady(c.s, free) && sends != [] {
      match sends[0]
      case SendRetry =>
      case SendFailed => RstOuter(c); SameEndOf(c, WriteRst(c));
      case Sent(count) =>
        var offered := |c.s.forward[0].data| - c.s.forward[0].sent;
        var n := if count <= offered then count else offered;
        TakeEnd(c, n, app);
        TakeStays(c, n);
        if n == offered {
          WholeKept(c, n, app);
          if TakeHead(c, n).s.forward == [] {
            NothingToForward(TakeHead(c, n), free - n, sends[1..]);
          } else {
            ForwardEnd(TakeHead(c, n), free - n, sends[1..], true, app);
          }
        }
    }
  }

  lemma TakeStays(c: Conn, n: nat)
    requires c.s.forward != [] && c.s.forward[0].sent + n <= |c.s.forward[0].data|
    ensures TakeHead(c, n).s.state == c.s.state
    ensures c.s.forward[0].sent + n < |c.s.forward[0].data| ==> TakeHead(c, n).s.forward != []
  {
    hide Plus;
  }

  lemma NothingToForward(c: Conn, free: nat, sends: seq<SendResult>)
    requires c.s.forward == []
    ensures Forward(c, free, sends, true) == (c, true)
  {
  }

  lemma SameEndOf(c: Conn, d: Conn)
    requires d.s.forward == c.s.forward && d.s.remoteSeq == c.s.remoteSeq && d.h.forwarded == c.h.forwarded
    requires c.s.forward != []
    ensures EndOf(d) == EndOf(c)
  {
  }

  lemma AcknowledgeQueue(c: Conn, fwd: bool, ev: SocketEvent)
    requires c.s.forward != []
    ensures SameOuter(c, Acknowledge(c, fwd, ev))
  {
    hide GetReceiveWindow, Minus;
  }

  lemma PacketQueue(c: Conn, pkt: InPacket, now: int, ok: bool)
    requires Owing(c) && Owing(HandleTcp(c, pkt, now, ok))
    ensures SameOuter(c, HandleTcp(c, pkt, now, ok))
  {
    hide Scaled, CompareU32, Plus, Minus, WriteRst;
    RstOuter(c);
    RstOuter(Refresh(c, pkt, now));
  }

  lemma SocketEnd(c: Conn, ev: SocketEvent, app: App)
    requires Inv(c, app) && Owing(c) && Owing(CheckTcpSocket(c, ev))
    ensures EndOf(CheckTcpSocket(c, ev)) == EndOf(c)
  {
    hide Forward, Acknowledge, ReadSocket, WriteRst, EndOf, LifeInv, OutboundInv, FinInv;
    if ev.err {
      RstOuter(c.(s := c.s.(time := ev.now)));
      SameEndOf(c, CheckTcpSocket(c, ev));
    } else {
      ForwardEnd(c, ev.free, ev.sends, false, app);
      ForwardAwake(c, ev.free, ev.sends, false);
      var (d, fwd) := if ev.writable then Forward(c, ev.free, ev.sends, false) else (c, false);
      var e := Acknowledge(d, fwd, ev);
      AcknowledgeStates(d, fwd, ev);
      ReadOuter(e, ev);
      AcknowledgeQueue(d, fwd, ev);
      SameEndOf(d, e);
      SameEndOf(e, ReadSocket(e, ev));
    }
  }

  lemma {:induction false} ForwardAwake(c: Conn, free: nat, sends: seq<SendResult>, fwd: bool)
    ensures c.s.state != Listen ==> Forward(c, free, sends, fwd).0.s.state != Listen
    decreases |sends|
  {
    hide TakeHead, WriteRst;
    RstEnds(c);
    if HeadReady(c.s, free) && sends != [] && sends[0].Sent? {
      var offered := |c.s.forward[0].data| - c.s.forward[0].sent;
      var n := if sends[0].count <= offered then sends[0].count else offered;
      TakeNotClose(c, n);
      if n == offered { ForwardAwake(TakeHead(c, n), free - n, sends[1..], true); }
    }
  }

  lemma AcknowledgeStates(c: Conn, fwd: bool, ev: SocketEvent)
    ensures c.s.state != Listen ==> Acknowledge(c, fwd, ev).s.state != Listen
    ensures c.s.forward == [] ==> Acknowledge(c, fwd, ev).s.forward == []
  {
    hide GetReceiveWindow, Plus, Minus;
  }

  /** While the FIN waits, the end of what is queued stays where it is. */
  lemma StepEnd(c: Conn, step: Step, app: App)
    requires Inv(c, app) && Owing(c) && Owing(Apply(c, step))
    ensures EndOf(Apply(c, step)) == EndOf(c)
  {
    hide HandleTcp, CheckTcpSocket, GetSendWindow, HeadReady, GetTcpTimeout, EndOf, Inv, Minus, WriteRst;
    match step
    case FromApp(pkt, now, ok) => PacketQueue(c, pkt, now, ok); SameEndOf(c, Apply(c, step));
    case OnSocket(ev) => if c.s.open { SocketEnd(c, ev, app); }
    case OnMonitor(_) => SameEndOf(c, Apply(c, step));
    case OnAge(_) => RstOuter(c); SameEndOf(c, Apply(c, step));
    case Disallow => RstOuter(c); SameEndOf(c, Apply(c, step));
  }

  ghost predicate OwingRun(c: Conn, steps: seq<Step>)
    decreases |steps|
  {
    Owing(c) && (steps == [] || OwingRun(Apply(c, steps[0]), steps[1..]))
  }

  lemma {:induction false} RunEnd(c: Conn, steps: seq<Step>, app: App)
    requires Inv(c, app) && AllowedRun(c, steps, app) && OwingRun(c, steps)
    ensures var d := Run(c, steps); Inv(d, app) && Owing(d) && EndOf(d) == EndOf(c)
    decreases |steps|
  {
    hide Inv, Apply, Allowed, EndOf;
    if steps != [] {
      StepKeepsInv(c, steps[0], app);
      assert Owing(Apply(c, steps[0]));
      StepEnd(c, steps[0], app);
      RunEnd(Apply(c, steps[0]), steps[1..], app);
    }
  }

  /** The forward loop of this event empties the queue. */
  predicate Drains(c: Conn, ev: SocketEvent) {
    && !ev.err && ev.writable
    && var d := Forward(c, ev.free, ev.sends, false).0; d.s.forward == [] && d.s.state == CloseWait
  }

  /** The state in which the FIN owed has been counted and acknowledged. */
  function Acknowledged(c: Conn, ev: SocketEvent): Conn {
    var (d, fwd) := Forward(c, ev.free, ev.sends, false);
    Acknowledge(d, fwd, ev)
  }

  lemma OwedFinAcked(c: Conn, ev: SocketEvent, app: App)
    requires Inv(c, app) && Owing(c) && Drains(c, ev)
    ensures var e := Acknowledged(c, ev);
            && AcksAll(e) && (AcksUnsent(e, app) <==> EndOf(c) != |app.stream|)
            && CheckTcpSocket(c, ev) == ReadSocket(e, ev)
  {
    hide Forward, ReadSocket, AcksUnsent, EndOf, Inv, AcksAll;
    ForwardEnd(c, ev.free, ev.sends, false, app) by { OutboundOf(c, app); }
    ForwardKeepsInv(c, ev.free, ev.sends, false, app) by { FinUncounted(c, app); }
    var (d, fwd) := Forward(c, ev.free, ev.sends, false);
    DrainedCounts(d, app);
    FinAcked(d, ev);
    FinCovers(Acknowledge(d, fwd, ev), app);
  }

  lemma OutboundOf(c: Conn, app: App)
    requires Inv(c, app)
    ensures OutboundInv(c, app)
  {
  }

  lemma FinUncounted(c: Conn, app: App)
    requires Inv(c, app) && c.s.forward != []
    ensures c.h.finSeen == 0 && Inv(c, app, false)
  {
    hide OutboundInv, FinInv;
  }

  lemma DrainedCounts(d: Conn, app: App)
    requires Inv(d, app, true) && d.s.forward == [] && d.s.state == CloseWait
    ensures d.h.synSeen == 1 && |d.h.accepted| == d.h.forwarded <= |app.stream|
  {
    hide FinInv, Ahead;
  }

  lemma FinAcked(d: Conn, ev: SocketEvent)
    requires d.s.forward == [] && d.s.state == CloseWait
    ensures var e := Acknowledge(d, true, ev);
            && AcksAll(e) && e.h.accepted == d.h.accepted && e.h.forwarded == d.h.forwarded
            && e.h.synSeen == d.h.synSeen && e.h.finSeen == d.h.finSeen + 1
  {
    hide GetReceiveWindow, Plus;
    MinusNothing(d.s.remoteSeq);
  }

  /** For every FIN taken while data is queued, and every run until the queue drains: the ACK that then counts
      the FIN covers a byte that was never accepted exactly if the FIN was not in order when it was taken. */
  lemma DeferredFinAcksUnsent(c: Conn, pkt: InPacket, now: int, ok: bool, steps: seq<Step>, ev: SocketEvent, app: App)
    requires !app.finsInOrder && Inv(c, app) && Honest(c, pkt, app) && HonestFin(c, pkt, app) && TakesFin(c.s, pkt)
    requires Filed(c, pkt).s.forward != []
    requires var f := HandleTcp(c, pkt, now, ok);
             AllowedRun(f, steps, app) && OwingRun(f, steps) && Drains(Run(f, steps), ev)
    ensures var d := Run(HandleTcp(c, pkt, now, ok), steps);
            var e := Acknowledged(d, ev);
            && CheckTcpSocket(d, ev) == ReadSocket(e, ev)
            && AcksAll(e) && (AcksUnsent(e, app) <==> !InOrderFin(c, pkt))
  {
    hide Inv, Honest, HonestFin, Ahead, HandleTcp, AllowedRun, Run;
    hide Acknowledged, AcksAll, AcksUnsent, Drains, StreamComplete;
    var f := HandleTcp(c, pkt, now, ok);
    PacketKeepsInv(c, pkt, now, ok, app);
    FiledEnd(c, pkt, now, ok, app);
    RunEnd(f, steps, app);
    OwedFinAcked(Run(f, steps), ev, app);
  }

  /** Where the queue ends once the FIN is filed. */
  lemma FiledEnd(c: Conn, pkt: InPacket, now: int, ok: bool, app: App)
    requires Inv(c, app) && Honest(c, pkt, app) && HonestFin(c, pkt, app) && TakesFin(c.s, pkt)
    requires Filed(c, pkt).s.forward != [] && Owing(HandleTcp(c, pkt, now, ok))
    ensures EndOf(HandleTcp(c, pkt, now, ok)) == |app.stream| <==> InOrderFin(c, pkt)
  {
    hide Inv, HandleTcp, StreamComplete, InOrderFin, EndOf;
    var e := FinFiled(c, pkt, now, ok, app);
    CompleteEnd(e, app);
    SameEndOf(e, HandleFin(e, ok));
  }

  lemma CompleteEnd(c: Conn, app: App)
    requires c.s.forward != []
    ensures StreamComplete(c, app) <==> EndOf(c) == |app.stream|
  {
    hide Ahead;
  }
}
