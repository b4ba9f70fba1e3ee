/** What is relayed to the app of what recv() gave. */
module TcpRelay {
  import opened Serial
  import opened TcpModel
  import opened TcpLife
  import DnsMessage

  /** One recv() that gave data, with what the DNS parser was told about it. */
  datatype Read = Read(data: seq<u8>, verdict: DnsMessage.Verdict)

  /** The state in which a socket event comes to recv(). */
  function BeforeRecv(c: Conn, ev: SocketEvent): Conn {
    var (d, fwd) := if ev.writable then Forward(c, ev.free, ev.sends, false) else (c, false);
    Acknowledge(d, fwd, ev)
  }

  /** What recv() gives a session in that state: at most the send window and the MSS, and nothing at all if it is
      not called or has no data. */
  function RecvOf(c: Conn, ev: SocketEvent): (got: seq<Read>)
    ensures |got| <= 1
  {
    var window := GetSendWindow(c.s);
    var size := if window > c.s.mss then c.s.mss else window;
    if (c.s.state == Established || c.s.state == CloseWait) && ev.readable && window > 0 && ev.recv.Received?
       && ev.recv.data != [] && size > 0
    then [Read(if |ev.recv.data| <= size then ev.recv.data else ev.recv.data[..size], ev.verdict)]
    else []
  }

  /** The read of a step, if there is one, and those of a run. */
  function ReadOf(c: Conn, step: Step): (got: seq<Read>)
    ensures |got| <= 1
  {
    if step.OnSocket? && c.s.open && !step.ev.err && c.s.state != Listen then RecvOf(BeforeRecv(c, step.ev), step.ev)
    else []
  }

  function ReadsOf(c: Conn, steps: seq<Step>): seq<Read>
    decreases |steps|
  {
    if steps == [] then [] else ReadOf(c, steps[0]) + ReadsOf(Apply(c, steps[0]), steps[1..])
  }

  function Raw(got: seq<Read>): seq<u8> {
    if got == [] then [] else Raw(got[..|got| - 1]) + got[|got| - 1].data
  }

  /** Each read after `parse_dns_response`, where the destination port is 53. */
  function AllPassed(dns: bool, got: seq<Read>): seq<u8> {
    if got == [] then []
    else AllPassed(dns, got[..|got| - 1]) + Passed(dns, got[|got| - 1].data, got[|got| - 1].verdict)
  }

  predicate SameRead(c: Conn, d: Conn) {
    d.s.dns == c.s.dns && d.h.read == c.h.read && d.h.relayed == c.h.relayed
  }

  /** `r` is the read that a step adds. */
  predicate Adds(c: Conn, d: Conn, r: Read) {
    && d.s.dns == c.s.dns && d.h.read == c.h.read + r.data
    && d.h.relayed == c.h.relayed + Passed(c.s.dns, r.data, r.verdict)
  }

  lemma RstReads(c: Conn)
    ensures SameRead(c, WriteRst(c))
  {
    hide Plus, Minus;
  }

  lemma AckReads(c: Conn, ok: bool)
    ensures SameRead(c, WriteAck(c, ok))
  {
    hide Minus;
  }

  lemma FinReads(c: Conn, ok: bool)
    ensures SameRead(c, HandleFin(c, ok))
  {
    hide Plus, WriteAck;
    AckReads(CountFin(c), ok);
  }

  lemma FlagsRead(c: Conn, pkt: InPacket, ok: bool)
    ensures SameRead(c, HandleFlags(c, pkt, ok))
  {
    hide Plus, CompareU32, WriteRst, HandleFin;
    RstReads(c);
    FinReads(c, ok);
  }

  lemma PacketReads(c: Conn, pkt: InPacket, now: int, ok: bool)
    ensures SameRead(c, HandleTcp(c, pkt, now, ok))
  {
    hide CompareU32, Insert, Scaled, HandleFlags, WriteRst;
    RstReads(c);
    var d := Refresh(c, pkt, now);
    RstReads(d);
    FlagsRead(if pkt.data != [] then QueueTcp(d, pkt) else d, pkt, ok);
  }

  lemma {:induction false} ForwardReads(c: Conn, free: nat, sends: seq<SendResult>, fwd: bool)
    ensures SameRead(c, Forward(c, free, sends, fwd).0)
    decreases |sends|
  {
    hide WriteRst, TakeHead;
    RstReads(c);
    if HeadReady(c.s, free) && sends != [] && sends[0].Sent? {
      var offered := |c.s.forward[0].data| - c.s.forward[0].sent;
      var n := if sends[0].count <= offered then sends[0].count else offered;
      TakeReads(c, n);
      if n == offered { ForwardReads(TakeHead(c, n), free - n, sends[1..], true); }
    }
  }

  lemma TakeReads(c: Conn, n: nat)
    requires c.s.forward != [] && c.s.forward[0].sent + n <= |c.s.forward[0].data|
    ensures SameRead(c, TakeHead(c, n))
  {
    hide Plus;
  }

  lemma AcknowledgeReads(c: Conn, fwd: bool, ev: SocketEvent)
    ensures SameRead(c, Acknowledge(c, fwd, ev))
  {
    hide GetReceiveWindow, Plus, Minus;
  }

  lemma EofReads(c: Conn, ok: bool)
    ensures SameRead(c, HandleEof(c, ok))
  {
    hide Plus, Minus, WriteRst;
    RstReads(c);
  }

  lemma DataReads(c: Conn, data: Chunk, v: DnsMessage.Verdict, ok: bool)
    ensures Adds(c, HandleData(c, data, v, ok), Read(data, v))
  {
    hide Plus, Minus, Passed;
  }

  lemma ConnectedReads(c: Conn, ev: SocketEvent)
    ensures SameRead(c, Connected(c, ev))
  {
    hide Plus, Minus;
  }

  lemma RecvReads(c: Conn, ev: SocketEvent)
    ensures var got := RecvOf(c, ev);
            if got == [] then SameRead(c, ReadSocket(c, ev)) else Adds(c, ReadSocket(c, ev), got[0])
  {
    hide WriteRst, GetSendWindow, HandleEof, HandleData, Passed;
    var t := c.(s := c.s.(time := ev.now));
    RstReads(t);
    EofReads(t, ev.writeOk);
    var got := RecvOf(c, ev);
    if got != [] { DataReads(t, got[0].data, ev.verdict, ev.writeOk); }
  }

  lemma SocketReads(c: Conn, ev: SocketEvent)
    requires c.s.open
    ensures var got := ReadOf(c, OnSocket(ev));
            if got == [] then SameRead(c, CheckTcpSocket(c, ev)) else Adds(c, CheckTcpSocket(c, ev), got[0])
  {
    hide WriteRst, Forward, Acknowledge, ReadSocket, RecvOf, Connected, Passed;
    RstReads(c.(s := c.s.(time := ev.now)));
    ConnectedReads(c, ev);
    ForwardReads(c, ev.free, ev.sends, false);
    var (d, fwd) := if ev.writable then Forward(c, ev.free, ev.sends, false) else (c, false);
    AcknowledgeReads(d, fwd, ev);
    RecvReads(BeforeRecv(c, ev), ev);
  }

  lemma MonitorReads(c: Conn, m: MonitorInput)
    ensures SameRead(c, MonitorTcpSession(c, m).0)
  {
    hide GetSendWindow, HeadReady, Minus;
  }

  lemma AgeReads(c: Conn, a: AgeInput)
    requires a.maxSessions > 0
    ensures SameRead(c, CheckTcpSession(c, a).0)
  {
    hide Expire, Finish;
    ExpireReads(c, a);
    FinishReads(Expire(c, a), a);
  }

  lemma ExpireReads(c: Conn, a: AgeInput)
    requires a.maxSessions > 0
    ensures SameRead(c, Expire(c, a))
  {
    hide GetTcpTimeout, WriteRst;
    RstReads(c);
  }

  lemma FinishReads(c: Conn, a: AgeInput)
    ensures SameRead(c, Finish(c, a))
  {
  }

  lemma StepReads(c: Conn, step: Step)
    ensures var got := ReadOf(c, step);
            if got == [] then SameRead(c, Apply(c, step)) else Adds(c, Apply(c, step), got[0])
  {
    hide HandleTcp, CheckTcpSocket, MonitorTcpSession, CheckTcpSession, BeforeRecv, RecvOf, Passed, WriteRst;
    match step
    case FromApp(pkt, now, ok) => PacketReads(c, pkt, now, ok);
    case OnSocket(ev) => if c.s.open { SocketReads(c, ev); }
    case OnMonitor(m) => MonitorReads(c, m);
    case OnAge(a) => if a.maxSessions > 0 { AgeReads(c, a); }
    case Disallow => RstReads(c);
  }

  /** Reads behind reads. */
  lemma {:induction false} RunReads(c: Conn, steps: seq<Step>, before: seq<Read>)
    requires c.h.read == Raw(before) && c.h.relayed == AllPassed(c.s.dns, before)
    ensures var d, got := Run(c, steps), before + ReadsOf(c, steps);
            d.s.dns == c.s.dns && d.h.read == Raw(got) && d.h.relayed == AllPassed(c.s.dns, got)
    decreases |steps|
  {
    hide Apply, ReadOf, Passed;
    if steps == [] {
      assert before + [] == before;
    } else {
      var more, rest := ReadOf(c, steps[0]), ReadsOf(Apply(c, steps[0]), steps[1..]);
      StepReads(c, steps[0]);
      assert before + (more + rest) == (before + more) + rest;
      if more == [] {
        assert before + more == before;
      } else {
        assert before + more == before + [more[0]];
        assert (before + more)[..|before|] == before;
      }
      RunReads(Apply(c, steps[0]), steps[1..], before + more);
    }
  }

  /** For every run of every session: what was read is what the reads of the run gave, in order, and what is
      relayed is each of them passed through the DNS parser if the destination port is 53, and left alone if not. */
  lemma RelayedIsPassed(c: Conn, allowed: bool, steps: seq<Step>)
    requires Fresh(c)
    ensures var d, got := Run(Start(c, allowed), steps), ReadsOf(Start(c, allowed), steps);
            && d.h.read == Raw(got) && d.h.relayed == AllPassed(c.s.dns, got)
            && (!c.s.dns ==> d.h.relayed == d.h.read)
  {
    hide Run, ReadsOf, Passed, WriteRst;
    RstReads(c);
    RunReads(Start(c, allowed), steps, []);
    var got := ReadsOf(Start(c, allowed), steps);
    assert [] + got == got;
    if !c.s.dns { PlainReads(got); }
  }

  lemma {:induction false} PlainReads(got: seq<Read>)
    ensures AllPassed(false, got) == Raw(got)
  {
    hide Passed;
    if got != [] { PlainReads(got[..|got| - 1]); }
  }
}
