/** What becomes of data on a SYN, which is queued at the number of the SYN itself. */
module TcpSynData {
  import opened Serial
  import opened TcpModel
  import opened TcpOrder
  import opened TcpStall

  // ---------------------------------------------------------------- whether it is sent

  /** Closing with the socket open and no SYN counted: only from there can data of a SYN reach send(). */
  predicate Slipped(c: Conn) {
    c.s.state == Closing && c.s.open && c.h.synSeen == 0
  }

  /** The event whose first send() takes bytes of the head. */
  predicate Takes(c: Conn, step: Step) {
    && step.OnSocket? && !step.ev.err && step.ev.writable && HeadReady(c.s, step.ev.free)
    && step.ev.sends != [] && step.ev.sends[0].Sent? && step.ev.sends[0].count > 0
  }

  /** The data still lies where it was filed, at `remote_seq`. */
  predicate Waiting(c: Conn) {
    && c.s.forward != [] && c.s.forward[0].data != [] && c.s.forward[0].sent == 0
    && c.s.forward[0].start == c.s.remoteSeq && c.h.synSeen == 0
    && ((c.s.state == Listen && c.s.open) || (c.s.state == Closing && c.s.open) || (c.s.state == Close && !c.s.open))
  }

  /** Nothing of it was taken so far. */
  ghost predicate Untaken(c: Conn) {
    c.h.accepted == [] && (Waiting(c) || (Stalled(c) && Behind(c)))
  }

  lemma OneAhead(a: u32)
    ensures Ahead(a, Plus(a, 1)) == -1
  {
  }

  /** Counting the SYN leaves the data behind. */
  lemma RstLeavesBehind(c: Conn)
    requires Untaken(c)
    ensures Untaken(WriteRst(c))
  {
    hide Ahead, Plus, Stalled, Behind;
    if Waiting(c) {
      RstCounts(c);
      if c.s.state == Listen { CountedBehind(c, WriteRst(c)); }
    } else {
      RstSticks(c);
      FrontKept(c, WriteRst(c));
    }
  }

  lemma CountedBehind(c: Conn, d: Conn)
    requires Waiting(c) && d.s.forward != [] && d.s.forward[0] == c.s.forward[0]
    requires d.s.remoteSeq == Plus(c.s.remoteSeq, 1) && d.s.state != Listen && d.s.state != FinWait1
    ensures Stalled(d) && Behind(d)
  {
    hide Ahead, Plus;
    OneAhead(c.s.remoteSeq);
  }

  lemma QueueWaits(c: Conn, pkt: InPacket)
    requires Waiting(c) && pkt.data != [] && -0x7FFF_FFFF < Ahead(pkt.seqNo, c.s.remoteSeq) < MAX_AHEAD
    ensures var d := QueueTcp(c, pkt); Waiting(d) && d.h == c.h && d.s.state == c.s.state
  {
    AheadOfItself(c.s.remoteSeq);
    CompareFromBase(pkt.seqNo, c.s.remoteSeq, c.s.remoteSeq);
    CompareFromBase(c.s.forward[0].start, pkt.seqNo, c.s.remoteSeq);
    hide Ahead, CompareU32;
  }

  lemma FlagsWait(c: Conn, pkt: InPacket, ok: bool)
    requires Waiting(c) && c.s.state == Listen && c.h.accepted == []
    ensures Untaken(HandleFlags(c, pkt, ok))
    ensures Slipped(HandleFlags(c, pkt, ok)) <==> pkt.rst
  {
    hide Ahead, Plus, CompareU32, Stalled, Behind, WriteRst;
    RstLeavesBehind(c);
    RstCounts(c);
  }

  lemma RstCounts(c: Conn)
    requires Waiting(c)
    ensures WriteRst(c).h.accepted == c.h.accepted
    ensures c.s.state == Listen ==> WriteRst(c).h.synSeen == 1
    ensures c.s.state != Listen ==> WriteRst(c).h.synSeen == 0 && WriteRst(c).s == c.s
  {
    hide Plus;
  }

  lemma PacketWaits(c: Conn, pkt: InPacket, now: int, ok: bool)
    requires Waiting(c) && c.h.accepted == [] && InReach(c, FromApp(pkt, now, ok))
    ensures Untaken(HandleTcp(c, pkt, now, ok))
    ensures c.s.state == Listen ==> (Slipped(HandleTcp(c, pkt, now, ok)) <==> pkt.rst && !pkt.urg)
  {
    hide Ahead, HandleFlags, QueueTcp, WriteRst, Stalled, Behind, Scaled;
    RstLeavesBehind(c);
    if !pkt.urg && c.s.state == Listen {
      var d := Refresh(c, pkt, now);
      if pkt.data != [] { QueueWaits(d, pkt); }
      FlagsWait(if pkt.data != [] then QueueTcp(d, pkt) else d, pkt, ok);
    }
  }

  /** The forward loop on the data of a SYN. */
  lemma ForwardWaits(c: Conn, free: nat, sends: seq<SendResult>)
    requires Waiting(c) && c.s.state == Closing && c.h.accepted == []
    ensures var d := Forward(c, free, sends, false).0;
            if HeadReady(c.s, free) && sends != [] && sends[0].Sent? && sends[0].count > 0
            then d.h.accepted != [] else Untaken(d) && d.s.state == Closing && d.s.open
  {
    hide Ahead, TakeHead, Stalled, Behind, WriteRst;
    if HeadReady(c.s, free) && sends != [] {
      match sends[0]
      case SendRetry =>
      case SendFailed => RstCounts(c);
      case Sent(count) =>
        var offered := |c.s.forward[0].data| - c.s.forward[0].sent;
        var n := if count <= offered then count else offered;
        TakenOnce(c, n);
        if n == offered { ForwardAccepts(TakeHead(c, n), free - n, sends[1..], true); }
    }
  }

  lemma TakenOnce(c: Conn, n: nat)
    requires Waiting(c) && c.s.state == Closing && c.h.accepted == [] && n <= |c.s.forward[0].data|
    ensures n > 0 ==> TakeHead(c, n).h.accepted != []
    ensures n == 0 ==> Waiting(TakeHead(c, n)) && TakeHead(c, n).h == c.h && TakeHead(c, n).s.state == Closing
                       && TakeHead(c, n).s.open
  {
    hide Plus;
  }

  lemma AcknowledgeWaits(c: Conn, fwd: bool, ev: SocketEvent)
    requires c.s.state == Closing && Untaken(c)
    ensures Untaken(Acknowledge(c, fwd, ev)) && Acknowledge(c, fwd, ev).s.state == Closing
  {
    hide GetReceiveWindow, Plus, Minus, Ahead;
  }

  lemma SocketWaits(c: Conn, ev: SocketEvent)
    requires Waiting(c) && c.s.open && c.h.accepted == []
    ensures var d := CheckTcpSocket(c, ev);
            if Slipped(c) && Takes(c, OnSocket(ev)) then d.h.accepted != [] else Untaken(d)
  {
    hide Ahead, Stalled, Behind, WriteRst, Forward, Acknowledge, ReadSocket, Connected;
    if ev.err {
      RstLeavesBehind(c.(s := c.s.(time := ev.now)));
    } else if c.s.state == Listen {
      if ev.writable { ConnectedLeavesBehind(c, ev); }
    } else {
      ForwardWaits(c, ev.free, ev.sends);
      var (d, fwd) := if ev.writable then Forward(c, ev.free, ev.sends, false) else (c, false);
      AcknowledgeAccepts(d, fwd, ev);
      if Untaken(d) && d.s.state == Closing { AcknowledgeWaits(d, fwd, ev); }
      ReadAccepts(Acknowledge(d, fwd, ev), ev);
    }
  }

  lemma ConnectedLeavesBehind(c: Conn, ev: SocketEvent)
    requires Waiting(c) && c.s.state == Listen && c.h.accepted == []
    ensures Untaken(Connected(c, ev))
  {
    hide Ahead, Plus, Stalled, Behind, Minus;
    CountedBehind(c, Connected(c, ev));
  }

  lemma MonitorWaits(c: Conn, m: MonitorInput)
    requires Waiting(c) && c.s.open && c.h.accepted == []
    ensures Untaken(MonitorTcpSession(c, m).0)
    ensures c.s.state == Listen ==>
              (Slipped(MonitorTcpSession(c, m).0) <==> (c.s.watchIn || !c.s.watchOut) && !m.epollOk)
  {
    hide GetSendWindow, HeadReady, Stalled, Behind, Minus;
  }

  lemma AgeWaits(c: Conn, a: AgeInput)
    requires Waiting(c) && c.h.accepted == [] && a.maxSessions > 0
    ensures Untaken(CheckTcpSession(c, a).0) && !Slipped(CheckTcpSession(c, a).0)
  {
    hide GetTcpTimeout, WriteRst, Stalled, Behind;
  }

  /** One step: the data is taken exactly by such an event in such a state, else it stays untaken. */
  lemma StepTakes(c: Conn, step: Step)
    requires Untaken(c) && InReach(c, step)
    ensures var d := Apply(c, step); if Slipped(c) && Takes(c, step) then d.h.accepted != [] else Untaken(d)
  {
    hide HandleTcp, CheckTcpSocket, MonitorTcpSession, CheckTcpSession, WriteRst;
    hide Stalled, Behind, InReach, Waiting, Takes, Refills;
    if Waiting(c) {
      WaitingStates(c);
      match step
      case FromApp(pkt, now, ok) => PacketWaits(c, pkt, now, ok); NoEvent(c, step);
      case OnSocket(ev) => if c.s.open { SocketWaits(c, ev); }
      case OnMonitor(m) => if c.s.open { MonitorWaits(c, m); } NoEvent(c, step);
      case OnAge(a) => if a.maxSessions > 0 { AgeWaits(c, a); } NoEvent(c, step);
      case Disallow => RstLeavesBehind(c); NoEvent(c, step);
    } else {
      BehindTakesNothing(c, step);
      StepSticks(c, step);
    }
  }

  lemma WaitingStates(c: Conn)
    requires Waiting(c)
    ensures !c.s.open ==> !Slipped(c)
  {
  }

  lemma NoEvent(c: Conn, step: Step)
    requires !step.OnSocket?
    ensures !Takes(c, step)
  {
  }

  lemma BehindTakesNothing(c: Conn, step: Step)
    requires Stalled(c) && Behind(c)
    ensures !Takes(c, step) && !Refills(c, step)
  {
    AheadOfItself(c.s.remoteSeq);
  }

  /** Somewhere in the run such an event meets such a state. */
  ghost predicate TakenAfterSlip(c: Conn, steps: seq<Step>)
    decreases |steps|
  {
    steps != [] && ((Slipped(c) && Takes(c, steps[0])) || TakenAfterSlip(Apply(c, steps[0]), steps[1..]))
  }

  lemma {:induction false} RunTakes(c: Conn, steps: seq<Step>)
    requires Untaken(c) && InReachRun(c, steps)
    ensures Run(c, steps).h.accepted != [] <==> TakenAfterSlip(c, steps)
    decreases |steps|
  {
    hide Apply, InReach, Waiting, Stalled, Behind, Takes, Slipped;
    if steps != [] {
      var d := Apply(c, steps[0]);
      StepTakes(c, steps[0]);
      if Slipped(c) && Takes(c, steps[0]) {
        RunAccepts(d, steps[1..]);
      } else {
        RunTakes(d, steps[1..]);
      }
    }
  }

  lemma NewSessionUntaken(pkt: InPacket, dns: bool, isn: u32, mss: u16, scale: nat, free: u32, now: int, allowed: bool)
    requires pkt.data != []
    ensures Untaken(NewSession(pkt, dns, isn, mss, scale, free, now, allowed))
  {
    hide GetReceiveWindow, Scaled, Stalled, Behind, WriteRst;
    RstLeavesBehind(NewSession(pkt, dns, isn, mss, scale, free, now, true));
  }

  /** For every run of a session whose SYN carries data: bytes reach the server if and only if the session
      slips from LISTEN into CLOSING with its socket open and no SYN counted, and a send() then takes some;
      else nothing ever does. */
  lemma SynDataForwarded(pkt: InPacket, dns: bool, isn: u32, mss: u16, scale: nat, free: u32, now: int, allowed: bool,
                         steps: seq<Step>)
    requires pkt.data != []
    requires InReachRun(NewSession(pkt, dns, isn, mss, scale, free, now, allowed), steps)
    ensures var c := NewSession(pkt, dns, isn, mss, scale, free, now, allowed);
            Run(c, steps).h.accepted != [] <==> TakenAfterSlip(c, steps)
  {
    hide NewSession, Run, TakenAfterSlip, InReachRun, Untaken;
    NewSessionUntaken(pkt, dns, isn, mss, scale, free, now, allowed);
    RunTakes(NewSession(pkt, dns, isn, mss, scale, free, now, allowed), steps);
  }

  /** A waiting session in LISTEN slips by a reset of the app or a failing `epoll_ctl`, and by nothing else. */
  lemma SlipsExactly(c: Conn, step: Step)
    requires Waiting(c) && c.h.accepted == [] && c.s.state == Listen && InReach(c, step)
    ensures Slipped(Apply(c, step)) <==>
              || (step.FromApp? && step.pkt.rst && !step.pkt.urg)
              || (step.OnMonitor? && (c.s.watchIn || !c.s.watchOut) && !step.monitor.epollOk)
  {
    hide HandleTcp, CheckTcpSocket, MonitorTcpSession, CheckTcpSession, Stalled, Behind, InReach, Untaken;
    match step
    case FromApp(pkt, now, ok) => PacketWaits(c, pkt, now, ok);
    case OnSocket(ev) => ListenEvent(c, ev);
    case OnMonitor(m) => MonitorWaits(c, m);
    case OnAge(a) => if a.maxSessions > 0 { AgeWaits(c, a); }
    case Disallow => RstCounts(c);
  }

  lemma ListenEvent(c: Conn, ev: SocketEvent)
    requires Waiting(c) && c.s.state == Listen
    ensures !Slipped(CheckTcpSocket(c, ev))
  {
    hide Plus, Minus;
  }

  /** The failing input: a SYN with data, a reset, and a socket that connects in the same batch of events. */
  lemma ResetForwardsSynData(pkt: InPacket, dns: bool, isn: u32, mss: u16, scale: nat, free: u32, now: int,
                             rst: InPacket, ok: bool, ev: SocketEvent)
    requires pkt.data != [] && rst.rst && !rst.urg && rst.data == []
    requires !ev.err && ev.writable && ev.free > |pkt.data| && ev.sends != [] && ev.sends[0] == Sent(|pkt.data|)
    ensures var c := NewSession(pkt, dns, isn, mss, scale, free, now, true);
            Run(c, [FromApp(rst, now, ok), OnSocket(ev)]).h.accepted != []
  {
    hide GetReceiveWindow, Scaled, CheckTcpSocket, Takes, HandleFlags;
    var c := NewSession(pkt, dns, isn, mss, scale, free, now, true);
    var steps := [FromApp(rst, now, ok), OnSocket(ev)];
    var d := HandleTcp(c, rst, now, ok);
    ResetSlips(c, rst, now, ok);
    assert Takes(d, OnSocket(ev)) by { TakesWhole(d, ev); }
    SocketWaits(d, ev);
    assert steps[1..] == [OnSocket(ev)] && steps[1..][1..] == [];
    assert Run(c, steps) == Run(d, steps[1..]);
    assert Run(d, steps[1..]) == CheckTcpSocket(d, ev);
  }

  lemma ResetSlips(c: Conn, rst: InPacket, now: int, ok: bool)
    requires Waiting(c) && c.s.state == Listen && rst.rst && !rst.urg && rst.data == []
    ensures var d := HandleTcp(c, rst, now, ok);
            Waiting(d) && Slipped(d) && d.s.forward == c.s.forward && d.h.accepted == c.h.accepted
  {
    hide Scaled;
  }

  lemma TakesWhole(d: Conn, ev: SocketEvent)
    requires Waiting(d) && !ev.err && ev.writable && ev.free > |d.s.forward[0].data|
    requires ev.sends != [] && ev.sends[0] == Sent(|d.s.forward[0].data|)
    ensures Takes(d, OnSocket(ev))
  {
  }
}
