/** Usage accounting: what `check_tcp_session` reports is what the session moved. */
module TcpUsage {
  import opened Serial
  import opened TcpModel
  import opened TcpLife

  ghost predicate UsageInv(c: Conn) {
    && LifeInv(c)
    && (c.h.reports == [] ==> c.s.sent == |c.h.accepted| && c.s.received == |c.h.read|)
    && (c.h.reports != [] ==>
          c.h.reports == [(|c.h.accepted|, |c.h.read|)]
          && (c.h.accepted != [] || c.h.read != [])
          && c.s.state == Close && c.s.sent == 0 && c.s.received == 0)
  }

  /** Bytes moved and bytes counted grow together, and nothing is reported. */
  ghost predicate Counted(c: Conn, d: Conn) {
    && d.h.reports == c.h.reports
    && d.s.sent - |d.h.accepted| == c.s.sent - |c.h.accepted|
    && d.s.received - |d.h.read| == c.s.received - |c.h.read|
  }

  ghost predicate Untouched(c: Conn, d: Conn) {
    && Counted(c, d) && d.h.accepted == c.h.accepted && d.h.read == c.h.read
  }

  lemma RstCounts(c: Conn)
    ensures Untouched(c, WriteRst(c))
  {
    hide Plus;
  }

  lemma FinCounts(c: Conn, ok: bool)
    ensures Untouched(c, HandleFin(c, ok))
  {
    hide Plus;
  }

  lemma FlagsCount(c: Conn, pkt: InPacket, ok: bool)
    ensures Untouched(c, HandleFlags(c, pkt, ok))
  {
    hide Plus, CompareU32, WriteRst, HandleFin;
    RstCounts(c);
    FinCounts(c, ok);
  }

  lemma PacketCounts(c: Conn, pkt: InPacket, now: int, ok: bool)
    ensures Untouched(c, HandleTcp(c, pkt, now, ok))
  {
    hide HandleFlags, WriteRst, CompareU32, Insert, Scaled;
    RstCounts(c);
    var d := Refresh(c, pkt, now);
    RstCounts(d);
    FlagsCount(if pkt.data != [] then QueueTcp(d, pkt) else d, pkt, ok);
  }

  lemma TakeCounts(c: Conn, n: nat)
    requires c.s.forward != [] && c.s.forward[0].sent + n <= |c.s.forward[0].data|
    ensures Counted(c, TakeHead(c, n))
  {
    hide Plus;
  }

  lemma {:induction false} ForwardCounts(c: Conn, free: nat, sends: seq<SendResult>, fwd: bool)
    ensures Counted(c, Forward(c, free, sends, fwd).0)
    decreases |sends|
  {
    hide TakeHead, WriteRst;
    RstCounts(c);
    if HeadReady(c.s, free) && sends != [] && sends[0].Sent? {
      var offered := |c.s.forward[0].data| - c.s.forward[0].sent;
      var n := if sends[0].count <= offered then sends[0].count else offered;
      TakeCounts(c, n);
      if n == offered {
        ForwardCounts(TakeHead(c, n), free - n, sends[1..], true);
      }
    }
  }

  lemma EofCounts(c: Conn, ok: bool)
    ensures Counted(c, HandleEof(c, ok))
  {
    hide Plus, Minus, WriteRst;
    RstCounts(c);
  }

  lemma ReadCounts(c: Conn, ev: SocketEvent)
    ensures Counted(c, ReadSocket(c, ev))
  {
    hide Plus, GetSendWindow, HandleEof, WriteRst;
    var t := c.(s := c.s.(time := ev.now));
    EofCounts(t, ev.writeOk);
    RstCounts(t);
  }

  lemma ConnectedCounts(c: Conn, ev: SocketEvent)
    ensures Counted(c, Connected(c, ev))
  {
    hide Plus, Minus;
  }

  lemma AcknowledgeCounts(c: Conn, fwd: bool, ev: SocketEvent)
    ensures Counted(c, Acknowledge(c, fwd, ev))
  {
    hide GetReceiveWindow, Plus, Minus;
  }

  lemma SocketCounts(c: Conn, ev: SocketEvent)
    ensures Counted(c, CheckTcpSocket(c, ev))
  {
    hide Forward, Acknowledge, ReadSocket, WriteRst, Connected;
    RstCounts(c.(s := c.s.(time := ev.now)));
    ConnectedCounts(c, ev);
    if !ev.err && c.s.state != Listen {
      ForwardCounts(c, ev.free, ev.sends, false);
      var (d, fwd) := if ev.writable then Forward(c, ev.free, ev.sends, false) else (c, false);
      AcknowledgeCounts(d, fwd, ev);
      ReadCounts(Acknowledge(d, fwd, ev), ev);
    }
  }

  lemma AgeUsage(c: Conn, a: AgeInput)
    requires UsageInv(c) && a.maxSessions > 0
    ensures UsageInv(CheckTcpSession(c, a).0)
  {
    hide GetTcpTimeout, WriteRst, LifeInv;
    AgeLife(c, a);
    RstCounts(c);
    assert c.h.reports != [] ==> Expire(c, a) == c;
  }

  lemma StepUsage(c: Conn, step: Step)
    requires UsageInv(c)
    ensures UsageInv(Apply(c, step))
  {
    hide HandleTcp, CheckTcpSocket, CheckTcpSession, MonitorTcpSession, WriteRst;
    StepLife(c, step);
    match step
    case FromApp(pkt, now, ok) => PacketCounts(c, pkt, now, ok);
    case OnSocket(ev) => SocketCounts(c, ev);
    case OnMonitor(m) => MonitorCounts(c, m);
    case OnAge(a) => if a.maxSessions > 0 { AgeUsage(c, a); }
    case Disallow => RstCounts(c);
  }

  lemma MonitorCounts(c: Conn, m: MonitorInput)
    ensures Counted(c, MonitorTcpSession(c, m).0)
  {
    hide GetSendWindow, HeadReady, Minus;
  }

  lemma {:induction false} RunUsage(c: Conn, steps: seq<Step>)
    requires UsageInv(c)
    ensures UsageInv(Run(c, steps))
    decreases |steps|
  {
    hide UsageInv, Apply;
    if steps != [] {
      StepUsage(c, steps[0]);
      RunUsage(Apply(c, steps[0]), steps[1..]);
    }
  }

  /** For every session and every run, up to and including the ageing step that deletes it: one report
      at most, and it names every byte send() took and recv() gave; none only if there were none. */
  lemma UsageConserved(c: Conn, allowed: bool, steps: seq<Step>, a: AgeInput)
    requires Fresh(c) && a.maxSessions > 0
    ensures var (d, del) := CheckTcpSession(Run(Start(c, allowed), steps), a);
            del ==>
              && d.s.sent == 0 && d.s.received == 0
              && d.h.reports == (if |d.h.accepted| == 0 && |d.h.read| == 0 then [] else [(|d.h.accepted|, |d.h.read|)])
  {
    hide GetTcpTimeout, Run;
    RunUsage(Start(c, allowed), steps);
    AgeUsage(Run(Start(c, allowed), steps), a);
  }
}
