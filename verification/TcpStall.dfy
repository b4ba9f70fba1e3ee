/** Queues that never drain. */
module TcpStall {
  import opened Serial
  import opened TcpModel
  import opened TcpOrder

  // ---------------------------------------------------------------- a head the forward loop does not touch

  /** The head starts before `remote_seq`: it overlaps what was forwarded, or it is the data of a SYN, which
      is queued at the number of the SYN itself. */
  ghost predicate Behind(c: Conn) {
    c.s.forward != [] && -0x1_0001 < Ahead(c.s.forward[0].start, c.s.remoteSeq) < 0
  }

  /** More of the head was sent than it now holds: a shorter segment has taken its place. */
  predicate Overdrawn(c: Conn) {
    && c.s.forward != [] && c.s.forward[0].start == c.s.remoteSeq
    && |c.s.forward[0].data| < c.s.forward[0].sent
  }

  ghost predicate Stalled(c: Conn) {
    c.s.state != Listen && c.s.state != FinWait1 && (Behind(c) || Overdrawn(c))
  }

  /** A segment for the place of an overdrawn head, long enough to make up for it. */
  predicate Refills(c: Conn, step: Step) {
    step.FromApp? && Overdrawn(c) && step.pkt.seqNo == c.s.remoteSeq && |step.pkt.data| >= c.s.forward[0].sent
  }

  /** The head is as it was. */
  ghost predicate SameFront(c: Conn, d: Conn) {
    && d.s.remoteSeq == c.s.remoteSeq && d.h.accepted == c.h.accepted
    && c.s.forward != [] && d.s.forward != [] && d.s.forward[0] == c.s.forward[0]
    && d.s.state != Listen && d.s.state != FinWait1
  }

  /** It starts where it did, with as much of it sent; only an overdrawn one may have been replaced. */
  ghost predicate SameHead(c: Conn, d: Conn) {
    && d.s.remoteSeq == c.s.remoteSeq && d.h.accepted == c.h.accepted
    && c.s.forward != [] && d.s.forward != []
    && d.s.forward[0].start == c.s.forward[0].start && d.s.forward[0].sent == c.s.forward[0].sent
  }

  lemma NeverReady(c: Conn, free: nat)
    requires Stalled(c)
    ensures !HeadReady(c.s, free)
  {
    AheadOfItself(c.s.remoteSeq);
  }

  lemma RstSticks(c: Conn)
    requires Stalled(c)
    ensures SameFront(c, WriteRst(c))
  {
    hide Ahead;
  }

  /** New data goes behind a head that starts before `remote_seq`, and may replace an overdrawn one. */
  lemma QueueSticks(c: Conn, pkt: InPacket)
    requires Stalled(c) && -0x7FFF_FFFF < Ahead(pkt.seqNo, c.s.remoteSeq) < MAX_AHEAD
    requires Overdrawn(c) && pkt.seqNo == c.s.remoteSeq ==> |pkt.data| < c.s.forward[0].sent
    ensures var d := QueueTcp(c, pkt);
            SameHead(c, d) && Stalled(d) && (Behind(c) ==> Behind(d)) && d.s.state == c.s.state
  {
    AheadOfItself(c.s.remoteSeq);
    CompareFromBase(pkt.seqNo, c.s.remoteSeq, c.s.remoteSeq);
    CompareFromBase(c.s.forward[0].start, pkt.seqNo, c.s.remoteSeq);
    hide Ahead, CompareU32;
  }

  lemma FlagsStick(c: Conn, pkt: InPacket, ok: bool)
    requires Stalled(c)
    ensures SameFront(c, HandleFlags(c, pkt, ok))
  {
    hide Ahead, Plus, CompareU32, WriteRst;
    RstSticks(c);
  }

  lemma FrontKept(c: Conn, d: Conn)
    requires Stalled(c) && SameFront(c, d)
    ensures Stalled(d) && SameHead(c, d) && (Behind(c) ==> Behind(d))
  {
    hide Ahead;
  }

  lemma RefreshSticks(c: Conn, pkt: InPacket, now: int)
    requires Stalled(c)
    ensures SameFront(c, Refresh(c, pkt, now))
  {
    hide Ahead, Scaled;
  }

  lemma PacketSticks(c: Conn, pkt: InPacket, now: int, ok: bool)
    requires Stalled(c) && InReach(c, FromApp(pkt, now, ok)) && !Refills(c, FromApp(pkt, now, ok))
    ensures var d := HandleTcp(c, pkt, now, ok); Stalled(d) && SameHead(c, d) && (Behind(c) ==> Behind(d))
  {
    hide Ahead, HandleFlags, QueueTcp, WriteRst, Refresh, Stalled;
    if pkt.urg {
      assert SameHead(c, c) by { StalledHead(c); }
    } else if c.s.state == Closing || c.s.state == Close {
      RstSticks(c);
      FrontKept(c, WriteRst(c));
    } else {
      var d := Refresh(c, pkt, now);
      RefreshSticks(c, pkt, now);
      FrontKept(c, d);
      if pkt.data != [] && (!d.s.open || d.s.state == CloseWait) {
        RstSticks(d);
        FrontKept(d, WriteRst(d));
      } else {
        if pkt.data != [] { QueueSticks(d, pkt); }
        var e := if pkt.data != [] then QueueTcp(d, pkt) else d;
        FlagsStick(e, pkt, ok);
        FrontKept(e, HandleFlags(e, pkt, ok));
      }
    }
  }

  lemma StalledHead(c: Conn)
    requires Stalled(c)
    ensures c.s.forward != [] && c.s.state != Listen && c.s.state != FinWait1
  {
  }

  lemma ReadSticks(c: Conn, ev: SocketEvent)
    requires Stalled(c)
    ensures SameFront(c, ReadSocket(c, ev))
  {
    hide Ahead, WriteRst, GetSendWindow, Plus, Passed;
    var t := c.(s := c.s.(time := ev.now));
    RstSticks(t);
  }

  lemma AcknowledgeSticks(c: Conn, ev: SocketEvent)
    requires Stalled(c)
    ensures SameFront(c, Acknowledge(c, false, ev))
  {
    hide Ahead, GetReceiveWindow;
  }

  lemma SocketSticks(c: Conn, ev: SocketEvent)
    requires Stalled(c)
    ensures SameFront(c, CheckTcpSocket(c, ev))
  {
    hide Ahead, WriteRst, ReadSocket, Acknowledge, HeadReady;
    NeverReady(c, ev.free);
    if ev.err {
      var t := c.(s := c.s.(time := ev.now));
      RstSticks(t);
    } else {
      var d := Acknowledge(c, false, ev);
      AcknowledgeSticks(c, ev);
      FrontKept(c, d);
      ReadSticks(d, ev);
    }
  }

  lemma MonitorSticks(c: Conn, m: MonitorInput)
    requires Stalled(c)
    ensures SameFront(c, MonitorTcpSession(c, m).0)
  {
    hide GetSendWindow, HeadReady, Ahead, Minus;
  }

  lemma AgeSticks(c: Conn, a: AgeInput)
    requires Stalled(c) && a.maxSessions > 0
    ensures SameFront(c, CheckTcpSession(c, a).0)
  {
    hide WriteRst, GetTcpTimeout, Ahead, Finish, Account, Stalled, Behind;
    RstSticks(c);
    StalledHead(c);
    FinishSticks(c, Expire(c, a), a);
  }

  lemma FinishSticks(c: Conn, e: Conn, a: AgeInput)
    requires SameFront(c, e) || (e == c && c.s.forward != [] && c.s.state != Listen && c.s.state != FinWait1)
    ensures SameFront(c, Account(Finish(e, a)))
  {
  }

  lemma StepSticks(c: Conn, step: Step)
    requires Stalled(c) && InReach(c, step) && !Refills(c, step)
    ensures Stalled(Apply(c, step)) && SameHead(c, Apply(c, step)) && (Behind(c) ==> Behind(Apply(c, step)))
  {
    hide HandleTcp, CheckTcpSocket, MonitorTcpSession, CheckTcpSession, Ahead, InReach, Refills, Stalled, WriteRst;
    StalledHead(c);
    match step
    case FromApp(pkt, now, ok) => PacketSticks(c, pkt, now, ok);
    case OnSocket(ev) => if c.s.open { SocketSticks(c, ev); FrontKept(c, Apply(c, step)); }
    case OnMonitor(m) => if c.s.open { MonitorSticks(c, m); FrontKept(c, Apply(c, step)); }
    case OnAge(a) => if a.maxSessions > 0 { AgeSticks(c, a); FrontKept(c, Apply(c, step)); }
    case Disallow => RstSticks(c); FrontKept(c, WriteRst(c)); FrontKept(c, c);
  }

  /** No step of the run makes up for an overdrawn head. */
  ghost predicate NeverRefilled(c: Conn, steps: seq<Step>)
    decreases |steps|
  {
    steps == [] || (!Refills(c, steps[0]) && NeverRefilled(Apply(c, steps[0]), steps[1..]))
  }

  /** Once the head starts before `remote_seq`, or is overdrawn, no run forwards another byte or
      acknowledges further; only a segment long enough for the place of an overdrawn head can end that. */
  lemma {:induction false} StuckForever(c: Conn, steps: seq<Step>)
    requires Stalled(c) && InReachRun(c, steps) && NeverRefilled(c, steps)
    ensures Run(c, steps).h.accepted == c.h.accepted && Run(c, steps).s.remoteSeq == c.s.remoteSeq
    ensures Stalled(Run(c, steps))
    decreases |steps|
  {
    hide Apply, InReach, Refills, Stalled;
    if steps != [] {
      StepSticks(c, steps[0]);
      StuckForever(Apply(c, steps[0]), steps[1..]);
    }
  }

  /** A head before `remote_seq` cannot be refilled. */
  lemma {:induction false} BehindNeverRefilled(c: Conn, steps: seq<Step>)
    requires Stalled(c) && Behind(c) && InReachRun(c, steps)
    ensures NeverRefilled(c, steps)
    decreases |steps|
  {
    hide Apply, InReach, Stalled;
    if steps != [] {
      AheadOfItself(c.s.remoteSeq);
      StepSticks(c, steps[0]);
      BehindNeverRefilled(Apply(c, steps[0]), steps[1..]);
    }
  }

  /** For every segment within reach: the head is overdrawn afterwards exactly if the segment has its place and
      fewer bytes than were sent, or has another place and the head was overdrawn before. */
  lemma OverdrawnExactly(c: Conn, pkt: InPacket)
    requires -0x7FFF_FFFF < Ahead(pkt.seqNo, c.s.remoteSeq) < MAX_AHEAD
    ensures Overdrawn(QueueTcp(c, pkt)) <==>
              && c.s.forward != [] && c.s.forward[0].start == c.s.remoteSeq
              && (if pkt.seqNo == c.s.remoteSeq then |pkt.data| < c.s.forward[0].sent else Overdrawn(c))
  {
    AheadOfItself(c.s.remoteSeq);
    CompareFromBase(pkt.seqNo, c.s.remoteSeq, c.s.remoteSeq);
    CompareFromBase(c.s.remoteSeq, pkt.seqNo, c.s.remoteSeq);
    hide Ahead;
    SameNumber(pkt.seqNo, c.s.remoteSeq);
    hide CompareU32;
  }

  /** The segment that makes up for it does: the head can be forwarded again. */
  lemma RefillRevives(c: Conn, pkt: InPacket)
    requires Overdrawn(c) && pkt.seqNo == c.s.remoteSeq && |pkt.data| >= c.s.forward[0].sent
    ensures !Overdrawn(QueueTcp(c, pkt)) && HeadReady(QueueTcp(c, pkt).s, |pkt.data| + 1)
  {
  }

  // ---------------------------------------------------------------- what send() took only grows

  lemma {:induction false} ForwardAccepts(c: Conn, free: nat, sends: seq<SendResult>, fwd: bool)
    ensures |Forward(c, free, sends, fwd).0.h.accepted| >= |c.h.accepted|
    decreases |sends|
  {
    hide Plus;
    if HeadReady(c.s, free) && sends != [] && sends[0].Sent? {
      var offered := |c.s.forward[0].data| - c.s.forward[0].sent;
      var n := if sends[0].count <= offered then sends[0].count else offered;
      if n == offered { ForwardAccepts(TakeHead(c, n), free - n, sends[1..], true); }
    }
  }

  lemma AcknowledgeAccepts(c: Conn, fwd: bool, ev: SocketEvent)
    ensures Acknowledge(c, fwd, ev).h.accepted == c.h.accepted
  {
    hide GetReceiveWindow, Plus, Minus;
  }

  lemma ReadAccepts(c: Conn, ev: SocketEvent)
    ensures ReadSocket(c, ev).h.accepted == c.h.accepted
    ensures c.s.state == Closing ==> ReadSocket(c, ev) == c
  {
    hide GetSendWindow, Plus, Minus, Passed;
  }

  lemma PacketAccepts(c: Conn, pkt: InPacket, now: int, ok: bool)
    ensures HandleTcp(c, pkt, now, ok).h.accepted == c.h.accepted
  {
    hide CompareU32, Insert, Scaled, HandleFlags, WriteRst;
    RstAccepts(c);
    var d := Refresh(c, pkt, now);
    RstAccepts(d);
    FlagsAccept(if pkt.data != [] then QueueTcp(d, pkt) else d, pkt, ok);
  }

  lemma RstAccepts(c: Conn)
    ensures WriteRst(c).h.accepted == c.h.accepted
  {
    hide Plus, Minus;
  }

  lemma FlagsAccept(c: Conn, pkt: InPacket, ok: bool)
    ensures HandleFlags(c, pkt, ok).h.accepted == c.h.accepted
  {
    hide Plus, Minus, CompareU32, WriteRst;
    RstAccepts(c);
  }

  lemma SocketAccepts(c: Conn, ev: SocketEvent)
    ensures |CheckTcpSocket(c, ev).h.accepted| >= |c.h.accepted|
  {
    hide Forward, Acknowledge, ReadSocket, Plus;
    ForwardAccepts(c, ev.free, ev.sends, false);
    var (d, fwd) := if ev.writable then Forward(c, ev.free, ev.sends, false) else (c, false);
    AcknowledgeAccepts(d, fwd, ev);
    ReadAccepts(Acknowledge(d, fwd, ev), ev);
  }

  lemma StepAccepts(c: Conn, step: Step)
    ensures |Apply(c, step).h.accepted| >= |c.h.accepted|
  {
    hide HandleTcp, CheckTcpSocket, GetSendWindow, HeadReady, Plus, Minus, GetTcpTimeout;
    match step
    case FromApp(pkt, now, ok) => PacketAccepts(c, pkt, now, ok);
    case OnSocket(ev) => SocketAccepts(c, ev);
    case OnMonitor(_) =>
    case OnAge(_) =>
    case Disallow => RstAccepts(c);
  }

  lemma {:induction false} RunAccepts(c: Conn, steps: seq<Step>)
    ensures |Run(c, steps).h.accepted| >= |c.h.accepted|
    decreases |steps|
  {
    hide Apply;
    if steps != [] {
      StepAccepts(c, steps[0]);
      RunAccepts(Apply(c, steps[0]), steps[1..]);
    }
  }
}
