/** The order of the forward queue, for every run whose data stays within the reach of the comparison, honest or
    not: strictly sorted from `remote_seq` on, and only a head at `remote_seq` partly sent. */
module TcpOrder {
  import opened Serial
  import opened TcpModel
  import opened TcpLife
  import DnsMessage

  // ---------------------------------------------------------------- the forward queue

  /** Arriving data may start this far beyond `remote_seq`; a receive window never exceeds 2^30. */
  const MAX_AHEAD := 0x7FFE_FFFF

  ghost predicate Near(seg: Segment, base: u32) {
    -0x1_0000 < Ahead(seg.start, base) < MAX_AHEAD
  }

  /** Strictly sorted in serial order, and only a head at `base` partly sent. */
  ghost predicate Ordered(q: seq<Segment>, base: u32) {
    && (forall i | 0 <= i < |q| :: Near(q[i], base))
    && (forall i | 0 <= i < |q| && q[i].sent > 0 :: i == 0 && q[i].start == base)
    && (forall i, j | 0 <= i < j < |q| :: Ahead(q[i].start, base) < Ahead(q[j].start, base))
  }

  function HeadSent(q: seq<Segment>): nat {
    if q == [] then 0 else q[0].sent
  }

  ghost predicate Beyond(q: seq<Segment>, base: u32, lo: int) {
    forall i | 0 <= i < |q| :: lo < Ahead(q[i].start, base)
  }

  ghost predicate Unsent(q: seq<Segment>) {
    forall i | 0 <= i < |q| :: q[i].sent == 0
  }

  lemma ConsOrdered(x: Segment, q: seq<Segment>, base: u32)
    requires Ordered(q, base) && Unsent(q)
    requires Near(x, base) && (x.sent > 0 ==> x.start == base) && Beyond(q, base, Ahead(x.start, base))
    ensures Ordered([x] + q, base)
  {
  }

  lemma TailOrdered(q: seq<Segment>, base: u32)
    requires Ordered(q, base) && q != []
    ensures Ordered(q[1..], base) && Unsent(q[1..])
    ensures Beyond(q[1..], base, Ahead(q[0].start, base))
  {
  }

  lemma HeadNotBefore(q: seq<Segment>, base: u32, d: int)
    requires Ordered(q, base) && q != [] && 0 <= d < Ahead(q[0].start, base)
    ensures Unsent(q) && Beyond(q, base, d)
  {
    TailOrdered(q, base);
  }

  /** Inserting keeps the queue in order; `lo` is any bound below everything involved. */
  lemma {:induction false} InsertOrdered(q: seq<Segment>, seg: Segment, base: u32, lo: int)
    requires Ordered(q, base) && Near(seg, base) && seg.sent == 0 && 0 <= Ahead(seg.start, base)
    requires lo < Ahead(seg.start, base) && Beyond(q, base, lo)
    ensures Ordered(Insert(q, seg), base) && Beyond(Insert(q, seg), base, lo)
    ensures HeadSent(Insert(q, seg)) == HeadSent(q)
    ensures Unsent(q) ==> Unsent(Insert(q, seg))
  {
    hide Ahead, CompareU32;
    if q == [] {
    } else {
      assert Near(q[0], base);
      CompareFromBase(q[0].start, seg.start, base);
      TailOrdered(q, base);
      if CompareU32(q[0].start, seg.start) < 0 {
        InsertOrdered(q[1..], seg, base, Ahead(q[0].start, base));
        ConsOrdered(q[0], Insert(q[1..], seg), base);
      } else if CompareU32(q[0].start, seg.start) > 0 {
        HeadNotBefore(q, base, Ahead(seg.start, base));
        ConsOrdered(seg, q, base);
      } else {
        ConsOrdered(Insert(q, seg)[0], q[1..], base);
      }
    }
  }

  /** Where the others lie once `base` has moved to the end of the head. */
  lemma PopShift(q: seq<Segment>, base: u32, i: nat)
    requires Ordered(q, base) && q != [] && q[0].start == base && 1 <= i < |q|
    ensures 0 < Ahead(q[i].start, base)
    ensures Ahead(q[i].start, Plus(base, |q[0].data|)) == Ahead(q[i].start, base) - |q[0].data|
  {
    hide Ahead;
    AheadOfItself(base);
    assert Ahead(q[0].start, base) < Ahead(q[i].start, base);
    AheadIsDistance(q[i].start, base);
    AheadAfterAdvance(q[i].start, base, |q[0].data|);
  }

  lemma PopOrdered(q: seq<Segment>, base: u32)
    requires Ordered(q, base) && q != [] && q[0].start == base
    ensures Ordered(q[1..], Plus(base, |q[0].data|)) && HeadSent(q[1..]) == 0 && Unsent(q[1..])
  {
    hide Ahead, Plus;
    forall i | 1 <= i < |q|
      ensures 0 < Ahead(q[i].start, base)
      ensures Ahead(q[i].start, Plus(base, |q[0].data|)) == Ahead(q[i].start, base) - |q[0].data|
    {
      PopShift(q, base, i);
    }
  }

  lemma PartOrdered(q: seq<Segment>, n: nat, base: u32)
    requires Ordered(q, base) && q != [] && q[0].start == base && q[0].sent + n < 0x1_0000
    ensures Ordered([q[0].(sent := q[0].sent + n)] + q[1..], base)
  {
    hide Ahead;
    assert Near(q[0], base);
    TailOrdered(q, base);
    ConsOrdered(q[0].(sent := q[0].sent + n), q[1..], base);
  }

  /** Counting a SYN moves `base` by one. */
  lemma CountOrdered(q: seq<Segment>, base: u32)
    requires Ordered(q, base) && Unsent(q) && Beyond(q, base, -1)
    ensures Ordered(q, Plus(base, 1))
  {
    hide Ahead, Plus;
    forall i | 0 <= i < |q| ensures Ahead(q[i].start, Plus(base, 1)) == Ahead(q[i].start, base) - 1 {
      assert Near(q[i], base);
      AheadAfterAdvance(q[i].start, base, 1);
    }
  }

  // ---------------------------------------------------------------- what most of a step leaves alone

  /** Nothing moved on the side of the server. */
  predicate SameOuter(c: Conn, d: Conn) {
    && d.s.forward == c.s.forward && d.s.remoteSeq == c.s.remoteSeq
    && d.h.accepted == c.h.accepted && d.h.forwarded == c.h.forwarded
    && d.h.synSeen == c.h.synSeen && d.h.finSeen == c.h.finSeen
    && (d.s.state == CloseWait ==> c.s.state == CloseWait) && (d.s.state == Listen ==> c.s.state == Listen)
  }

  lemma RstOuter(c: Conn)
    requires c.s.state != Listen
    ensures SameOuter(c, WriteRst(c))
  {
    hide Minus;
  }

  lemma EofOuter(c: Conn, ok: bool)
    requires c.s.state == Established || c.s.state == CloseWait
    ensures SameOuter(c, HandleEof(c, ok))
  {
    hide Plus, Minus, WriteRst;
    RstOuter(c);
  }

  lemma DataOuter(c: Conn, data: Chunk, v: DnsMessage.Verdict, ok: bool)
    requires c.s.state == Established || c.s.state == CloseWait
    ensures SameOuter(c, HandleData(c, data, v, ok))
  {
    hide Plus, Minus, Passed;
  }

  lemma ReadOuter(c: Conn, ev: SocketEvent)
    ensures SameOuter(c, ReadSocket(c, ev))
  {
    hide GetSendWindow, HandleEof, HandleData, WriteRst;
    if c.s.state == Established || c.s.state == CloseWait {
      var t := c.(s := c.s.(time := ev.now));
      RstOuter(t);
      EofOuter(t, ev.writeOk);
      if ev.recv.Received? {
        var window := GetSendWindow(c.s);
        var size := if window > c.s.mss then c.s.mss else window;
        DataOuter(t, if |ev.recv.data| <= size then ev.recv.data else ev.recv.data[..size], ev.verdict, ev.writeOk);
      }
    }
  }

  lemma MonitorOuter(c: Conn, m: MonitorInput)
    ensures SameOuter(c, MonitorTcpSession(c, m).0)
  {
    hide GetSendWindow, HeadReady, Minus;
  }

  lemma AgeOuter(c: Conn, a: AgeInput)
    requires a.maxSessions > 0
    ensures SameOuter(c, CheckTcpSession(c, a).0)
  {
    hide Expire, Finish, Account;
    ExpireOuter(c, a);
    FinishOuter(Expire(c, a), a);
  }

  lemma ExpireOuter(c: Conn, a: AgeInput)
    requires a.maxSessions > 0
    ensures SameOuter(c, Expire(c, a))
  {
    hide GetTcpTimeout, WriteRst;
    if c.s.state != Listen { RstOuter(c); }
  }

  lemma FinishOuter(c: Conn, a: AgeInput)
    ensures SameOuter(c, Finish(c, a)) && SameOuter(Finish(c, a), Account(Finish(c, a)))
  {
  }

  lemma AcknowledgeOuter(c: Conn, fwd: bool, ev: SocketEvent)
    ensures SameOuter(c, Acknowledge(c, fwd, ev))
            || (fwd && c.s.forward == [] && c.s.state == CloseWait && SameOuter(CountFin(c), Acknowledge(c, fwd, ev)))
  {
    hide GetReceiveWindow, Plus, Minus;
  }

  // ---------------------------------------------------------------- runs within reach

  /** Data arrives within the distance the comparison can handle. */
  ghost predicate InReach(c: Conn, step: Step) {
    step.FromApp? && step.pkt.data != [] ==>
      -0x7FFF_FFFF < Ahead(step.pkt.seqNo, c.s.remoteSeq) < MAX_AHEAD
  }

  ghost predicate InReachRun(c: Conn, steps: seq<Step>)
    decreases |steps|
  {
    steps == [] || (InReach(c, steps[0]) && InReachRun(Apply(c, steps[0]), steps[1..]))
  }

  /** What a successful send() of part of the head, or of the rest of it, moves. */
  lemma Taken(c: Conn, n: nat)
    requires c.s.forward != [] && c.s.forward[0].sent + n <= |c.s.forward[0].data|
    ensures var seg, d := c.s.forward[0], TakeHead(c, n);
            && d.h.accepted == c.h.accepted + seg.data[seg.sent..seg.sent + n]
            && d.h.synSeen == c.h.synSeen && d.h.finSeen == c.h.finSeen
            && d.s.state == c.s.state && d.s.open == c.s.open
            && if seg.sent + n < |seg.data| then
                 && d.s.forward == [seg.(sent := seg.sent + n)] + c.s.forward[1..]
                 && d.s.remoteSeq == c.s.remoteSeq && d.h.forwarded == c.h.forwarded
               else
                 && d.s.forward == c.s.forward[1..] && d.s.remoteSeq == Plus(seg.start, |seg.data|)
                 && d.h.forwarded == c.h.forwarded + |seg.data|
  {
    hide Plus;
  }

  lemma TakeOrdered(c: Conn, n: nat)
    requires Ordered(c.s.forward, c.s.remoteSeq) && c.s.forward != [] && c.s.forward[0].start == c.s.remoteSeq
    requires c.s.forward[0].sent + n <= |c.s.forward[0].data|
    ensures Ordered(TakeHead(c, n).s.forward, TakeHead(c, n).s.remoteSeq)
  {
    hide Ordered, Plus, TakeHead;
    Taken(c, n);
    if c.s.forward[0].sent + n < |c.s.forward[0].data| {
      PartOrdered(c.s.forward, n, c.s.remoteSeq);
    } else {
      PopOrdered(c.s.forward, c.s.remoteSeq);
    }
  }

  // ---------------------------------------------------------------- order over every run

  /** Before the SYN is counted nothing has been sent. */
  ghost predicate OrderInv(c: Conn) {
    && Ordered(c.s.forward, c.s.remoteSeq)
    && (c.s.state == Listen ==> Unsent(c.s.forward) && Beyond(c.s.forward, c.s.remoteSeq, -1))
  }

  lemma OuterOrdered(c: Conn, d: Conn)
    requires OrderInv(c) && SameOuter(c, d)
    ensures OrderInv(d)
  {
    hide Ordered, Beyond, Unsent;
  }

  lemma RstOrdered(c: Conn)
    requires OrderInv(c)
    ensures OrderInv(WriteRst(c)) && WriteRst(c).s.state != Listen
  {
    hide Ordered, Beyond, Unsent, Plus, Minus;
    if c.s.state == Listen { CountOrdered(c.s.forward, c.s.remoteSeq); }
  }

  lemma ConnectedOrdered(c: Conn, ev: SocketEvent)
    requires OrderInv(c) && c.s.state == Listen
    ensures OrderInv(Connected(c, ev))
  {
    hide Ordered, Beyond, Unsent, Plus, Minus;
    CountOrdered(c.s.forward, c.s.remoteSeq);
  }

  lemma QueueOrdered(c: Conn, pkt: InPacket)
    requires OrderInv(c) && -0x7FFF_FFFF < Ahead(pkt.seqNo, c.s.remoteSeq) < MAX_AHEAD
    ensures OrderInv(QueueTcp(c, pkt))
  {
    hide Ordered, Ahead, Insert, Unsent, Beyond, CompareU32;
    AheadOfItself(c.s.remoteSeq);
    CompareFromBase(pkt.seqNo, c.s.remoteSeq, c.s.remoteSeq);
    if 0 <= Ahead(pkt.seqNo, c.s.remoteSeq) {
      var seg := Segment(pkt.seqNo, pkt.data, 0, pkt.psh);
      FarBelow(c.s.forward, c.s.remoteSeq);
      InsertOrdered(c.s.forward, seg, c.s.remoteSeq, if c.s.state == Listen then -1 else -0x1_0000);
    }
  }

  lemma FarBelow(q: seq<Segment>, base: u32)
    requires Ordered(q, base)
    ensures Beyond(q, base, -0x1_0000)
  {
    hide Ahead;
  }

  /** A FIN is counted behind an empty queue only. */
  lemma FinOrdered(c: Conn, ok: bool)
    requires OrderInv(c) && (c.s.state == FinWait1 ==> c.s.forward == [])
    ensures OrderInv(HandleFin(c, ok))
  {
    hide Ahead, Plus, Minus;
  }

  lemma FlagsOrdered(c: Conn, pkt: InPacket, ok: bool)
    requires OrderInv(c) && (c.s.state == FinWait1 ==> c.s.forward == [])
    ensures OrderInv(HandleFlags(c, pkt, ok))
  {
    hide Ordered, Unsent, Beyond, Plus, CompareU32, WriteRst, HandleFin;
    RstOrdered(c);
    FinOrdered(c, ok);
  }

  lemma PacketOrdered(c: Conn, pkt: InPacket, now: int, ok: bool)
    requires OrderInv(c) && LifeInv(c) && InReach(c, FromApp(pkt, now, ok))
    ensures OrderInv(HandleTcp(c, pkt, now, ok))
  {
    hide OrderInv, Ahead, Scaled, QueueTcp, HandleFlags, WriteRst;
    RstOrdered(c);
    if !pkt.urg && c.s.state != Closing && c.s.state != Close {
      var d := Refresh(c, pkt, now);
      OuterOrdered(c, d);
      RstOrdered(d);
      if pkt.data != [] && d.s.open {
        QueueOrdered(d, pkt);
        QueueState(d, pkt);
        FlagsOrdered(QueueTcp(d, pkt), pkt, ok);
      } else {
        FlagsOrdered(d, pkt, ok);
      }
    }
  }

  lemma QueueState(c: Conn, pkt: InPacket)
    ensures QueueTcp(c, pkt).s.state == c.s.state
  {
    hide CompareU32, Insert;
  }

  lemma {:induction false} ForwardOrdered(c: Conn, free: nat, sends: seq<SendResult>, fwd: bool)
    requires Ordered(c.s.forward, c.s.remoteSeq) && c.s.state != Listen
    ensures var d := Forward(c, free, sends, fwd).0; Ordered(d.s.forward, d.s.remoteSeq) && d.s.state != Listen
    decreases |sends|
  {
    hide Ordered, TakeHead, WriteRst;
    if HeadReady(c.s, free) && sends != [] {
      RstOuter(c);
      RstEnds(c);
      if sends[0].Sent? {
        var offered := |c.s.forward[0].data| - c.s.forward[0].sent;
        var n := if sends[0].count <= offered then sends[0].count else offered;
        TakeOrdered(c, n);
        TakeNotClose(c, n);
        if n == offered { ForwardOrdered(TakeHead(c, n), free - n, sends[1..], true); }
      }
    }
  }

  lemma RstEnds(c: Conn)
    ensures WriteRst(c).s.state != Listen
  {
    hide Plus, Minus;
  }

  lemma AcknowledgeOrdered(c: Conn, fwd: bool, ev: SocketEvent)
    requires Ordered(c.s.forward, c.s.remoteSeq) && c.s.state != Listen
    ensures OrderInv(Acknowledge(c, fwd, ev)) && Acknowledge(c, fwd, ev).s.state != Listen
  {
    hide GetReceiveWindow, Plus, Minus, Ahead;
  }

  lemma SocketOrdered(c: Conn, ev: SocketEvent)
    requires OrderInv(c)
    ensures OrderInv(CheckTcpSocket(c, ev))
  {
    hide Ordered, Unsent, Beyond, Forward, Acknowledge, ReadSocket, Connected, WriteRst;
    if ev.err {
      var t := c.(s := c.s.(time := ev.now));
      OuterOrdered(c, t);
      RstOrdered(t);
    } else if c.s.state == Listen {
      ConnectedOrdered(c, ev);
    } else {
      ForwardOrdered(c, ev.free, ev.sends, false);
      var (d, fwd) := if ev.writable then Forward(c, ev.free, ev.sends, false) else (c, false);
      var e := Acknowledge(d, fwd, ev);
      AcknowledgeOrdered(d, fwd, ev);
      ReadOuter(e, ev);
      OuterOrdered(e, ReadSocket(e, ev));
    }
  }

  lemma StepOrdered(c: Conn, step: Step)
    requires OrderInv(c) && LifeInv(c) && InReach(c, step)
    ensures OrderInv(Apply(c, step))
  {
    hide OrderInv, LifeInv, SameOuter, HandleTcp, CheckTcpSocket, MonitorTcpSession, CheckTcpSession, WriteRst, InReach;
    StepLife(c, step);
    match step
    case FromApp(pkt, now, ok) => PacketOrdered(c, pkt, now, ok);
    case OnSocket(ev) => SocketOrdered(c, ev);
    case OnMonitor(m) => MonitorOuter(c, m); if c.s.open { OuterOrdered(c, MonitorTcpSession(c, m).0); }
    case OnAge(a) => if a.maxSessions > 0 { AgeOuter(c, a); OuterOrdered(c, CheckTcpSession(c, a).0); }
    case Disallow => RstOrdered(c);
  }

  /** Every run within reach keeps the queue in order. */
  lemma {:induction false} RunOrdered(c: Conn, steps: seq<Step>)
    requires OrderInv(c) && LifeInv(c) && InReachRun(c, steps)
    ensures OrderInv(Run(c, steps))
    decreases |steps|
  {
    hide OrderInv, LifeInv, InReach, Apply;
    if steps != [] {
      StepOrdered(c, steps[0]);
      StepLife(c, steps[0]);
      RunOrdered(Apply(c, steps[0]), steps[1..]);
    }
  }

  lemma StartOrdered(c: Conn, allowed: bool)
    requires Fresh(c)
    ensures OrderInv(Start(c, allowed)) && LifeInv(Start(c, allowed))
  {
    hide WriteRst;
    FreshOrdered(c);
    RstOrdered(c);
    RstLife(c);
  }

  lemma FreshOrdered(c: Conn)
    requires Fresh(c)
    ensures OrderInv(c)
  {
    hide Ahead;
    AheadOfItself(c.s.remoteSeq);
  }
}
