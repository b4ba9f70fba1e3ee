/** The life cycle of a session, for every run whatsoever: no assumption on the app, the socket or the
    clock is made here. */
module TcpLife {
  import opened Serial
  import opened TcpModel
  import DnsMessage

  /** LISTEN > SYN_RECV > ESTABLISHED > FIN_WAIT1, CLOSE_WAIT > LAST_ACK > CLOSING > CLOSE. */
  function Rank(state: State): nat {
    match state
    case Listen => 6
    case SynRecv => 5
    case Established => 4
    case FinWait1 => 3
    case CloseWait => 3
    case LastAck => 2
    case Closing => 1
    case Close => 0
  }

  /** What each state says about the socket and the flags counted so far.  A FIN is `owed` between the
      send() that empties the queue in CloseWait and the ACK that counts it. */
  ghost predicate LifeInv(c: Conn, owed: bool := false) {
    var s, h := c.s, c.h;
    && h.synSeen <= 1 && h.finSeen <= h.synSeen && h.synSent <= h.synSeen && h.finSent <= h.synSent
    && h.closes == (if s.open then 0 else 1)
    && (h.finSeen == 1 ==> s.forward == [])
    && match s.state
       case Listen => s.open && h.synSeen == 0
       case SynRecv => s.open && h.synSent == 1 && h.finSeen == 0 && h.finSent == 0
       case Established => s.open && h.synSent == 1 && h.finSeen == 0 && h.finSent == 0
       case CloseWait => s.open && h.synSent == 1 && h.finSent == 0
                         && (s.forward == [] ==> h.finSeen == 1 || owed)
       case FinWait1 => !s.open && h.finSent == 1 && h.finSeen == 0 && s.forward == []
       case LastAck => !s.open && h.finSent == 1 && h.finSeen == 1
       case Closing => true
       case Close => !s.open
  }

  /** A step goes down the ranks or stays in its state. */
  ghost predicate Down(c: Conn, d: Conn) {
    d.s.state == c.s.state || Rank(d.s.state) < Rank(c.s.state)
  }

  lemma RstLife(c: Conn, owed: bool := false)
    requires LifeInv(c, owed)
    ensures LifeInv(WriteRst(c)) && LifeInv(WriteRst(c), true) && Down(c, WriteRst(c))
  {
    hide Plus, Minus;
  }

  lemma FinLife(c: Conn, ok: bool)
    requires LifeInv(c)
    ensures LifeInv(HandleFin(c, ok)) && Down(c, HandleFin(c, ok))
  {
    hide Plus, Minus;
  }

  lemma FlagsLife(c: Conn, pkt: InPacket, ok: bool)
    requires LifeInv(c) && c.s.state != Close
    ensures LifeInv(HandleFlags(c, pkt, ok)) && Down(c, HandleFlags(c, pkt, ok))
  {
    hide CompareU32, Plus, WriteRst, HandleFin, HandleAck, LifeInv;
    RstLife(c);
    FinLife(c, ok);
    AckLife(c, pkt.ackNo);
    ClosingLife(c);
  }

  lemma AckLife(c: Conn, ackNo: u32)
    requires LifeInv(c)
    ensures LifeInv(HandleAck(c, ackNo)) && Down(c, HandleAck(c, ackNo)) && LifeInv(c.(s := c.s.(acked := ackNo)))
  {
  }

  lemma ClosingLife(c: Conn)
    requires LifeInv(c) && c.s.state != Close
    ensures LifeInv(c.(s := c.s.(state := Closing))) && Down(c, c.(s := c.s.(state := Closing)))
  {
  }

  lemma PacketLife(c: Conn, pkt: InPacket, now: int, ok: bool)
    requires LifeInv(c)
    ensures LifeInv(HandleTcp(c, pkt, now, ok)) && Down(c, HandleTcp(c, pkt, now, ok))
  {
    hide Insert, CompareU32, Scaled, Plus, WriteRst, HandleFlags;
    RstLife(c);
    if c.s.state != Closing && c.s.state != Close {
      var d := Refresh(c, pkt, now);
      RstLife(d);
      var q := if pkt.data != [] && d.s.open && d.s.state != CloseWait then QueueTcp(d, pkt) else d;
      FlagsLife(q, pkt, ok);
    }
  }

  lemma QueueMeansNoFin(c: Conn, owed: bool)
    requires LifeInv(c, owed) && c.s.forward != []
    ensures c.h.finSeen == 0
  {
  }

  lemma TakeLife(c: Conn, n: nat, owed: bool)
    requires LifeInv(c, owed) && c.h.finSeen == 0
    requires c.s.forward != [] && c.s.forward[0].sent + n <= |c.s.forward[0].data|
    ensures LifeInv(TakeHead(c, n), true) && TakeHead(c, n).h.finSeen == 0
    ensures TakeHead(c, n).s.open == c.s.open && Down(c, TakeHead(c, n))
  {
    hide Plus;
  }

  lemma {:induction false} ForwardLife(c: Conn, free: nat, sends: seq<SendResult>, fwd: bool)
    requires LifeInv(c, fwd) && c.s.open && (fwd ==> c.h.finSeen == 0)
    ensures var (d, f) := Forward(c, free, sends, fwd);
            LifeInv(d, f) && d.s.open && (f ==> d.h.finSeen == 0) && Down(c, d)
    decreases |sends|
  {
    hide LifeInv, TakeHead, Plus;
    if HeadReady(c.s, free) && sends != [] {
      assert c.h.finSeen == 0 by { QueueMeansNoFin(c, fwd); }
      match sends[0]
      case SendRetry =>
      case SendFailed => RstLife(c, fwd);
      case Sent(count) =>
        var offered := |c.s.forward[0].data| - c.s.forward[0].sent;
        var n := if count <= offered then count else offered;
        TakeLife(c, n, fwd);
        if n == offered {
          ForwardLife(TakeHead(c, n), free - n, sends[1..], true);
        }
    }
  }

  lemma AcknowledgeLife(c: Conn, fwd: bool, ev: SocketEvent)
    requires LifeInv(c, fwd) && c.s.open && (fwd ==> c.h.finSeen == 0)
    ensures LifeInv(Acknowledge(c, fwd, ev)) && Down(c, Acknowledge(c, fwd, ev))
  {
    hide GetReceiveWindow, Plus, Minus;
  }

  lemma EofLife(c: Conn, ok: bool)
    requires LifeInv(c) && (c.s.state == Established || c.s.state == CloseWait)
    ensures LifeInv(HandleEof(c, ok)) && Down(c, HandleEof(c, ok))
  {
    hide Plus, Minus;
  }

  lemma DataLife(c: Conn, data: Chunk, v: DnsMessage.Verdict, ok: bool)
    requires LifeInv(c) && (c.s.state == Established || c.s.state == CloseWait)
    ensures LifeInv(HandleData(c, data, v, ok)) && Down(c, HandleData(c, data, v, ok))
  {
    hide Plus, Minus;
  }

  lemma ReadLife(c: Conn, ev: SocketEvent)
    requires LifeInv(c)
    ensures LifeInv(ReadSocket(c, ev)) && Down(c, ReadSocket(c, ev))
  {
    hide GetSendWindow, HandleEof, HandleData, WriteRst;
    var t := c.(s := c.s.(time := ev.now));
    RstLife(t);
    if c.s.state == Established || c.s.state == CloseWait {
      EofLife(t, ev.writeOk);
      var window := GetSendWindow(c.s);
      var size := if window > c.s.mss then c.s.mss else window;
      if ev.recv.Received? {
        DataLife(t, if |ev.recv.data| <= size then ev.recv.data else ev.recv.data[..size], ev.verdict, ev.writeOk);
      }
    }
  }

  lemma ConnectedLife(c: Conn, ev: SocketEvent)
    requires LifeInv(c) && c.s.state == Listen
    ensures LifeInv(Connected(c, ev)) && Down(c, Connected(c, ev))
  {
    hide Plus, Minus;
  }

  lemma SocketLife(c: Conn, ev: SocketEvent)
    requires LifeInv(c) && c.s.open
    ensures LifeInv(CheckTcpSocket(c, ev)) && Down(c, CheckTcpSocket(c, ev))
  {
    hide Forward, Acknowledge, ReadSocket, Connected, WriteRst;
    if ev.err {
      RstLife(c.(s := c.s.(time := ev.now)));
    } else if c.s.state == Listen {
      ConnectedLife(c, ev);
    } else {
      ForwardLife(c, ev.free, ev.sends, false);
      var (d, fwd) := if ev.writable then Forward(c, ev.free, ev.sends, false) else (c, false);
      AcknowledgeLife(d, fwd, ev);
      ReadLife(Acknowledge(d, fwd, ev), ev);
    }
  }

  lemma MonitorLife(c: Conn, m: MonitorInput)
    requires LifeInv(c) && c.s.open
    ensures LifeInv(MonitorTcpSession(c, m).0) && Down(c, MonitorTcpSession(c, m).0)
  {
    hide GetSendWindow, Minus, HeadReady;
  }

  lemma FinishLife(c: Conn, a: AgeInput)
    requires LifeInv(c)
    ensures LifeInv(Account(Finish(c, a))) && Down(c, Account(Finish(c, a)))
  {
  }

  lemma AgeLife(c: Conn, a: AgeInput)
    requires LifeInv(c) && a.maxSessions > 0
    ensures LifeInv(CheckTcpSession(c, a).0) && Down(c, CheckTcpSession(c, a).0)
  {
    hide GetTcpTimeout, WriteRst, Account, Finish, LifeInv;
    RstLife(c);
    if c.s.state != Close { ClosingLife(c); }
    FinishLife(Expire(c, a), a);
  }

  lemma StepLife(c: Conn, step: Step)
    requires LifeInv(c)
    ensures LifeInv(Apply(c, step)) && Down(c, Apply(c, step))
  {
    hide LifeInv, HandleTcp, CheckTcpSocket, MonitorTcpSession, CheckTcpSession, WriteRst;
    match step
    case FromApp(pkt, now, ok) => PacketLife(c, pkt, now, ok);
    case OnSocket(ev) => if c.s.open { SocketLife(c, ev); }
    case OnMonitor(m) => if c.s.open { MonitorLife(c, m); }
    case OnAge(a) => if a.maxSessions > 0 { AgeLife(c, a); }
    case Disallow => RstLife(c);
  }

  /** Every run goes down the ranks, keeps the socket open exactly in the states that use it, closes it
      at most once, and counts each SYN and each FIN at most once. */
  lemma {:induction false} SessionLife(c: Conn, steps: seq<Step>)
    requires LifeInv(c)
    ensures LifeInv(Run(c, steps)) && Down(c, Run(c, steps))
    decreases |steps|
  {
    hide LifeInv, Apply;
    if steps != [] {
      StepLife(c, steps[0]);
      SessionLife(Apply(c, steps[0]), steps[1..]);
    }
  }

  /** The record and history of a session just registered for a SYN; data of the SYN is queued at its number. */
  predicate Fresh(c: Conn) {
    && c.s.state == Listen && c.s.open && |c.s.forward| <= 1
    && (c.s.forward != [] ==> c.s.forward[0].start == c.s.remoteSeq && c.s.forward[0].sent == 0)
    && c.s.remoteSeq == c.s.remoteStart && c.s.localSeq == c.s.localStart
    && c.s.sent == 0 && c.s.received == 0
    && c.h == History([], 0, 0, 0, [], [], 0, 0, 0, [], c.h.maxWindow, 0, [])
  }

  /** A session that is not allowed is reset at once. */
  function Start(c: Conn, allowed: bool): Conn {
    if allowed then c else WriteRst(c)
  }

  lemma NewSessionStarts(pkt: InPacket, dns: bool, isn: u32, mss: u16, scale: nat, free: u32, now: int, allowed: bool)
    ensures var c := NewSession(pkt, dns, isn, mss, scale, free, now, true);
            && Fresh(c) && (pkt.data == [] <==> c.s.forward == [])
            && NewSession(pkt, dns, isn, mss, scale, free, now, allowed) == Start(c, allowed)
            && c.s.remoteSeq == pkt.seqNo && c.s.localSeq == isn && c.s.acked == 0 && c.s.unconfirmed == 0
            && c.s.lastKeepAlive == 0 && c.s.time == now && c.s.mss == mss && c.s.dns == dns
            && c.s.recvScale == scale && c.s.sendScale == scale && c.s.watchOut && !c.s.watchIn
  {
  }

  lemma NewSessionLife(pkt: InPacket, dns: bool, isn: u32, mss: u16, scale: nat, free: u32, now: int, allowed: bool)
    ensures LifeInv(NewSession(pkt, dns, isn, mss, scale, free, now, allowed))
  {
  }

  /** The clock reading of a step. */
  function ClockOf(step: Step): int {
    match step
    case FromApp(_, now, _) => now
    case OnSocket(ev) => ev.now
    case OnMonitor(_) => 0
    case OnAge(a) => a.closeTime
    case Disallow => 0
  }

  /** Entering Close, by ageing or by the app's last FIN, sets the time to that moment. */
  lemma CloseStampsTime(c: Conn, step: Step)
    requires LifeInv(c) && c.s.state != Close && Apply(c, step).s.state == Close
    ensures (step.OnAge? || step.FromApp?) && Apply(c, step).s.time == ClockOf(step)
  {
    hide CheckTcpSocket, MonitorTcpSession, WriteRst, HandleFlags, QueueTcp, GetTcpTimeout;
    match step
    case FromApp(pkt, now, ok) => RstNotClose(c); RstNotClose(Refresh(c, pkt, now)); FlagsStampTime(c, pkt, now, ok);
    case OnSocket(ev) => SocketNotClose(c, ev);
    case OnMonitor(m) => MonitorNotClose(c, m);
    case OnAge(_) => RstNotClose(c);
    case Disallow => RstNotClose(c);
  }

  lemma RstNotClose(c: Conn)
    requires c.s.state != Close
    ensures WriteRst(c).s.state == Closing
  {
  }

  lemma FlagsStampTime(c: Conn, pkt: InPacket, now: int, ok: bool)
    requires c.s.state != Close && c.s.state != Closing
    ensures var d := Refresh(c, pkt, now);
            var e := if pkt.data != [] then QueueTcp(d, pkt) else d;
            HandleFlags(e, pkt, ok).s.state == Close ==> HandleFlags(e, pkt, ok).s.time == now
  {
    hide Insert, Scaled, CompareU32, HandleFlags;
    var d := Refresh(c, pkt, now);
    FlagsClose(if pkt.data != [] then QueueTcp(d, pkt) else d, pkt, ok);
  }

  lemma FlagsClose(c: Conn, pkt: InPacket, ok: bool)
    requires c.s.state != Close
    ensures HandleFlags(c, pkt, ok).s.state == Close ==> !pkt.syn && HandleFlags(c, pkt, ok).s.time == c.s.time
  {
    hide Plus, Minus, CompareU32, WriteRst, HandleFin;
    RstNotClose(c);
    FinKeepsTime(c, ok);
  }

  lemma FinKeepsTime(c: Conn, ok: bool)
    ensures HandleFin(c, ok).s.time == c.s.time
  {
    hide WriteAck, Plus;
    AckKeepsTime(CountFin(c), ok);
  }

  lemma AckKeepsTime(c: Conn, ok: bool)
    ensures WriteAck(c, ok).s.time == c.s.time
  {
    hide Minus;
  }

  lemma SocketNotClose(c: Conn, ev: SocketEvent)
    requires c.s.state != Close
    ensures CheckTcpSocket(c, ev).s.state != Close
  {
    hide WriteRst, Forward, Acknowledge, ReadSocket, Connected;
    RstNotClose(c.(s := c.s.(time := ev.now)));
    if !ev.err && c.s.state == Listen {
      ConnectedNotClose(c, ev);
    } else {
      ForwardNotClose(c, ev.free, ev.sends, false);
      var (d, fwd) := if ev.writable then Forward(c, ev.free, ev.sends, false) else (c, false);
      AcknowledgeNotClose(d, fwd, ev);
      ReadNotClose(Acknowledge(d, fwd, ev), ev);
    }
  }

  lemma ConnectedNotClose(c: Conn, ev: SocketEvent)
    requires c.s.state != Close
    ensures Connected(c, ev).s.state != Close
  {
    hide Plus, Minus;
  }

  lemma TakeNotClose(c: Conn, n: nat)
    requires c.s.forward != [] && c.s.forward[0].sent + n <= |c.s.forward[0].data|
    ensures TakeHead(c, n).s.state == c.s.state
  {
    hide Plus;
  }

  lemma {:induction false} ForwardNotClose(c: Conn, free: nat, sends: seq<SendResult>, fwd: bool)
    requires c.s.state != Close
    ensures Forward(c, free, sends, fwd).0.s.state != Close
    decreases |sends|
  {
    hide WriteRst, TakeHead;
    RstNotClose(c);
    if HeadReady(c.s, free) && sends != [] && sends[0].Sent? {
      forall n: nat | c.s.forward[0].sent + n <= |c.s.forward[0].data| { TakeNotClose(c, n); }
      var offered := |c.s.forward[0].data| - c.s.forward[0].sent;
      var n := if sends[0].count <= offered then sends[0].count else offered;
      if n == offered { ForwardNotClose(TakeHead(c, n), free - n, sends[1..], true); }
    }
  }

  lemma AcknowledgeNotClose(c: Conn, fwd: bool, ev: SocketEvent)
    requires c.s.state != Close
    ensures Acknowledge(c, fwd, ev).s.state != Close
  {
    hide GetReceiveWindow, Plus, Minus;
  }

  lemma ReadNotClose(c: Conn, ev: SocketEvent)
    requires c.s.state != Close
    ensures ReadSocket(c, ev).s.state != Close
  {
    hide GetSendWindow, HandleEof, HandleData, WriteRst;
    var t := c.(s := c.s.(time := ev.now));
    RstNotClose(t);
    EofNotClose(t, ev.writeOk);
    if ev.recv.Received? {
      var window := GetSendWindow(c.s);
      var size := if window > c.s.mss then c.s.mss else window;
      DataNotClose(t, if |ev.recv.data| <= size then ev.recv.data else ev.recv.data[..size], ev.verdict, ev.writeOk);
    }
  }

  lemma EofNotClose(c: Conn, ok: bool)
    requires c.s.state != Close
    ensures HandleEof(c, ok).s.state != Close
  {
    hide Plus, Minus, WriteRst;
    RstNotClose(c);
  }

  lemma DataNotClose(c: Conn, data: Chunk, v: DnsMessage.Verdict, ok: bool)
    requires c.s.state != Close
    ensures HandleData(c, data, v, ok).s.state != Close
  {
    hide Plus, Minus, Passed;
  }

  lemma MonitorNotClose(c: Conn, m: MonitorInput)
    requires c.s.state != Close
    ensures MonitorTcpSession(c, m).0.s.state != Close
  {
    hide GetSendWindow, HeadReady, Minus;
  }

  /** A closed session stays closed, and nothing touches its time again. */
  lemma ClosedStep(c: Conn, step: Step)
    requires LifeInv(c) && c.s.state == Close
    ensures Apply(c, step).s.state == Close && Apply(c, step).s.time == c.s.time
  {
    hide Plus, Minus, CheckTcpSocket, MonitorTcpSession, GetTcpTimeout;
  }

  lemma {:induction false} ClosedRun(c: Conn, steps: seq<Step>)
    requires LifeInv(c) && c.s.state == Close
    ensures LifeInv(Run(c, steps)) && Run(c, steps).s.state == Close && Run(c, steps).s.time == c.s.time
    decreases |steps|
  {
    hide LifeInv, Apply;
    if steps != [] {
      StepLife(c, steps[0]);
      ClosedStep(c, steps[0]);
      ClosedRun(Apply(c, steps[0]), steps[1..]);
    }
  }

  /** A session is deleted with its socket closed exactly once and its counters zero. */
  lemma DeletedOnceClosed(c: Conn, a: AgeInput)
    requires LifeInv(c) && a.maxSessions > 0
    ensures var (d, del) := CheckTcpSession(c, a);
            del ==> d.s.state == Close && d.h.closes == 1 && d.s.time + TCP_KEEP_TIMEOUT < a.now
                    && d.s.sent == 0 && d.s.received == 0
  {
    hide GetTcpTimeout, WriteRst;
    AgeLife(c, a);
  }

  /** From the step that closes a session, over every run, to the ageing step that deletes it, a full
      TCP_KEEP_TIMEOUT passes. */
  lemma KeptAfterClose(c: Conn, step: Step, steps: seq<Step>, a: AgeInput)
    requires LifeInv(c) && c.s.state != Close && Apply(c, step).s.state == Close && a.maxSessions > 0
    ensures CheckTcpSession(Run(Apply(c, step), steps), a).1 ==> ClockOf(step) + TCP_KEEP_TIMEOUT < a.now
  {
    hide LifeInv, Apply, Run, GetTcpTimeout, WriteRst;
    StepLife(c, step);
    CloseStampsTime(c, step);
    ClosedRun(Apply(c, step), steps);
  }
}
