/** `struct tcp_session` updated in place, as tcp.c does it.  Every method is proved equal to the
    function of `TcpModel` of the same name, so the results about runs hold of this code. */
module TcpSession {
  import opened Serial
  import opened TcpModel
  import DnsMessage

  /** Adding in 32 bits one by one, or from the other end. */
  lemma SumStep(t: u32, x: int, rest: u32)
    ensures U32(t + U32(x + rest)) == U32(U32(t + x) + rest)
  {
  }

  /** Where the walk of `queue_tcp` stops before a later segment or at the end. */
  lemma {:induction false} InsertNew(q: seq<Segment>, i: nat, seg: Segment)
    requires i <= |q|
    requires forall k | 0 <= k < i :: CompareU32(q[k].start, seg.start) < 0
    requires i == |q| || CompareU32(q[i].start, seg.start) > 0
    ensures Insert(q, seg) == q[..i] + [seg] + q[i..]
  {
    hide CompareU32;
    if i == 0 {
      assert q[..0] + [seg] + q[0..] == [seg] + q;
    } else {
      InsertNew(q[1..], i - 1, seg);
      Shift(q, i, seg);
    }
  }

  /** Where it stops at a segment with the same number. */
  lemma {:induction false} InsertSame(q: seq<Segment>, i: nat, seg: Segment)
    requires i < |q|
    requires forall k | 0 <= k < i :: CompareU32(q[k].start, seg.start) < 0
    requires CompareU32(q[i].start, seg.start) == 0
    ensures Insert(q, seg) == if |q[i].data| == |seg.data| then q else q[i := q[i].(data := seg.data)]
  {
    hide CompareU32;
    if i == 0 {
      assert q[0 := q[0].(data := seg.data)] == [q[0].(data := seg.data)] + q[1..];
      assert q == [q[0]] + q[1..];
    } else {
      InsertSame(q[1..], i - 1, seg);
      Shift(q, i, q[i].(data := seg.data));
      assert q == [q[0]] + q[1..];
    }
  }

  lemma Shift(q: seq<Segment>, i: nat, seg: Segment)
    requires 0 < i <= |q|
    ensures [q[0]] + (q[1..][..i - 1] + [seg] + q[1..][i - 1..]) == q[..i] + [seg] + q[i..]
    ensures i < |q| ==> [q[0]] + q[1..][i - 1 := seg] == q[i := seg]
  {
  }

  class Session {
    var state: State
    var socketOpen: bool
    var watchIn: bool
    var watchOut: bool
    const remoteStart: u32
    var remoteSeq: u32
    const localStart: u32
    var localSeq: u32
    var acked: u32
    const recvScale: nat
    const sendScale: nat
    var recvWindow: u32
    var sendWindow: u32
    const mss: u16
    const dns: bool
    var unconfirmed: u16
    var sent: nat
    var received: nat
    var time: int
    var lastKeepAlive: int
    var forward: seq<Segment>
    ghost var h: History

    ghost function Model(): Conn
      reads this
    {
      Conn(Tcp(state, socketOpen, watchIn, watchOut, remoteStart, remoteSeq, localStart, localSeq, acked,
               recvScale, sendScale, recvWindow, sendWindow, mss, dns, unconfirmed, sent, received, time,
               lastKeepAlive, forward), h)
    }

    constructor (pkt: InPacket, dns: bool, isn: u32, mss: u16, scale: nat, free: u32, now: int, allowed: bool)
      ensures Model() == NewSession(pkt, dns, isn, mss, scale, free, now, allowed)
    {
      state := Listen;
      socketOpen, watchIn, watchOut := true, false, true;
      remoteStart, remoteSeq := pkt.seqNo, pkt.seqNo;
      localStart, localSeq := isn, isn;
      acked := 0;
      recvScale, sendScale := scale, scale;
      recvWindow := 0;
      sendWindow := Scaled(pkt.window, scale);
      this.mss := mss;
      this.dns := dns;
      unconfirmed := 0;
      sent, received := 0, 0;
      time := now;
      lastKeepAlive := 0;
      forward := if pkt.data == [] then [] else [Segment(pkt.seqNo, pkt.data, 0, pkt.psh)];
      h := History([], 0, 0, 0, [], [], 0, 0, 0, [], Scaled(pkt.window, scale), 0, []);
      new;
      recvWindow := ReceiveWindow(free);
      if !allowed {
        Rst();
      }
    }

    // -------------------------------------------------------------- writing

    ghost method Log(data: seq<u8>, syn: bool, ack: bool, fin: bool, rst: bool, back: nat)
      requires back <= 1
      modifies this`h
      ensures Model() == WriteTcp(old(Model()), data, syn, ack, fin, rst, back)
    {
      h := WriteTcp(Model(), data, syn, ack, fin, rst, back).h;
    }

    method Ack(ok: bool)
      modifies this
      ensures Model() == WriteAck(old(Model()), ok)
    {
      Log([], false, true, false, false, 0);
      if !ok {
        state := Closing;
      }
    }

    method CountsSyn()
      modifies this
      ensures Model() == CountSyn(old(Model())) && state == old(state)
    {
      remoteSeq := Plus(remoteSeq, 1);
      h := h.(synSeen := h.synSeen + 1);
    }

    method CountsFin()
      modifies this
      ensures Model() == CountFin(old(Model())) && state == old(state)
    {
      remoteSeq := Plus(remoteSeq, 1);
      h := h.(finSeen := h.finSeen + 1);
    }

    method Touch(now: int)
      modifies this`time
      ensures Model() == old(Model()).(s := old(Model()).s.(time := now))
    {
      time := now;
    }

    method Rst()
      modifies this
      ensures Model() == WriteRst(old(Model()))
    {
      hide WriteTcp, CountSyn;
      var ack := false;
      if state == Listen {
        ack := true;
        CountsSyn();
      }
      Log([], false, ack, false, true, 0);
      if state != Close {
        state := Closing;
      }
    }

    // -------------------------------------------------------------- windows

    method SendWindow() returns (total: u32)
      ensures total == GetSendWindow(Model().s)
    {
      var behind: u32;
      if acked <= localSeq {
        behind := localSeq - acked;
      } else {
        behind := U32(0x1_0000 + localSeq - acked);
      }
      behind := U32(behind + (unconfirmed + 1) * 40);
      total := if behind < sendWindow then sendWindow - behind else 0;
    }

    method ReceiveWindow(free: u32) returns (total: u32)
      ensures total == GetReceiveWindow(Model().s, free)
    {
      var toForward := SumForward();
      var window: u32 := free;
      var max := Scaled(0xFFFF, recvScale);
      if window > max {
        window := max;
      }
      total := if toForward < window then window - toForward else 0;
    }

    /** The loop over the queue. */
    method SumForward() returns (toForward: u32)
      ensures toForward == ToForward(forward)
    {
      hide U32;
      toForward := 0;
      var i := 0;
      U32Small(ToForward(forward));
      assert forward[0..] == forward;
      while i < |forward|
        invariant 0 <= i <= |forward|
        invariant ToForward(forward) == U32(toForward + ToForward(forward[i..]))
      {
        var unsent := |forward[i].data| - forward[i].sent;
        assert forward[i..][1..] == forward[i + 1..];
        SumStep(toForward, unsent, ToForward(forward[i + 1..]));
        toForward := U32(toForward + unsent);
        i := i + 1;
      }
      assert forward[i..] == [];
      U32Small(toForward);
    }

    // -------------------------------------------------------------- packets from the app

    method Queue(pkt: InPacket)
      modifies this`forward
      ensures Model() == QueueTcp(old(Model()), pkt)
    {
      if CompareU32(pkt.seqNo, remoteSeq) >= 0 {
        var i := 0;
        while i < |forward| && CompareU32(forward[i].start, pkt.seqNo) < 0
          invariant 0 <= i <= |forward|
          invariant forall k | 0 <= k < i :: CompareU32(forward[k].start, pkt.seqNo) < 0
        {
          i := i + 1;
        }
        hide CompareU32, Insert;
        if i == |forward| || CompareU32(forward[i].start, pkt.seqNo) > 0 {
          InsertNew(forward, i, Segment(pkt.seqNo, pkt.data, 0, pkt.psh));
          forward := forward[..i] + [Segment(pkt.seqNo, pkt.data, 0, pkt.psh)] + forward[i..];
        } else {
          InsertSame(forward, i, Segment(pkt.seqNo, pkt.data, 0, pkt.psh));
          if |forward[i].data| != |pkt.data| {
            forward := forward[i := forward[i].(data := pkt.data)];
          }
        }
      }
    }

    method Fin(ok: bool)
      modifies this
      ensures Model() == HandleFin(old(Model()), ok)
    {
      hide WriteAck, CountFin;
      if state == Established {
        if forward == [] {
          CountsFin();
          Ack(ok);
          if ok {
            state := CloseWait;
          }
        } else {
          state := CloseWait;
        }
      } else if state == FinWait1 {
        CountsFin();
        Ack(ok);
        if ok {
          state := Close;
        }
      }
    }

    method Flags(pkt: InPacket, ok: bool)
      modifies this
      ensures Model() == HandleFlags(old(Model()), pkt, ok)
    {
      hide CompareU32, Plus, WriteRst, HandleFin;
      if pkt.rst {
        state := Closing;
      } else if !pkt.ack || pkt.ackNo == localSeq {
        if pkt.syn {
        } else if pkt.fin {
          Fin(ok);
        } else if pkt.ack {
          acked := pkt.ackNo;
          if state == SynRecv {
            state := Established;
          } else if state == LastAck {
            state := Closing;
          }
        }
      } else if Plus(pkt.ackNo, 1) != localSeq {
        if CompareU32(pkt.ackNo, localSeq) < 0 {
          if CompareU32(pkt.ackNo, acked) > 0 {
            acked := pkt.ackNo;
          }
        } else {
          Rst();
        }
      }
    }

    method Handle(pkt: InPacket, now: int, ok: bool)
      modifies this
      ensures Model() == HandleTcp(old(Model()), pkt, now, ok)
    {
      hide CompareU32, WriteRst, HandleFlags, QueueTcp, Scaled;
      if pkt.urg {
        return;
      }
      if state == Closing || state == Close {
        Rst();
        return;
      }
      if !pkt.syn {
        time := now;
      }
      sendWindow := Scaled(pkt.window, sendScale);
      h := h.(maxWindow := MaxNat(h.maxWindow, sendWindow));
      unconfirmed := 0;
      if pkt.data != [] {
        if !socketOpen {
          Rst();
          return;
        }
        if state == CloseWait {
          Rst();
          return;
        }
        Queue(pkt);
      }
      Flags(pkt, ok);
    }

    // -------------------------------------------------------------- socket events

    /** The bookkeeping after one successful send(). */
    method Take(n: nat)
      requires forward != [] && forward[0].sent + n <= |forward[0].data|
      modifies this
      ensures Model() == TakeHead(old(Model()), n)
    {
      hide Plus;
      var head := forward[0];
      sent := sent + n;
      h := h.(accepted := h.accepted + head.data[head.sent..head.sent + n]);
      if head.sent + n == |head.data| {
        remoteSeq := Plus(head.start, head.sent + n);
        forward := forward[1..];
        h := h.(forwarded := h.forwarded + (head.sent + n));
      } else {
        forward := [head.(sent := head.sent + n)] + forward[1..];
      }
    }

    /** The forward loop of `check_tcp_socket`; `buffer` never underflows. */
    method ForwardData(free: u32, sends: seq<SendResult>) returns (fwd: bool)
      modifies this
      ensures (Model(), fwd) == Forward(old(Model()), free, sends, false)
    {
      hide TakeHead, WriteRst;
      fwd := false;
      var buffer: nat := free;
      var k := 0;
      while forward != [] && forward[0].start == remoteSeq
            && 0 <= |forward[0].data| - forward[0].sent < buffer && k < |sends|
        invariant 0 <= k <= |sends|
        invariant Forward(old(Model()), free, sends, false) == Forward(Model(), buffer, sends[k..], fwd)
        decreases |sends| - k
      {
        assert sends[k..][1..] == sends[k + 1..];
        match sends[k] {
          case SendRetry =>
            return;
          case SendFailed =>
            Rst();
            return;
          case Sent(count) =>
            var offered := |forward[0].data| - forward[0].sent;
            var n := if count <= offered then count else offered;
            fwd := true;
            buffer := buffer - n;
            Take(n);
            if n < offered {
              return;
            }
        }
        k := k + 1;
      }
    }

    method AckForwarded(fwd: bool, ev: SocketEvent)
      modifies this
      ensures Model() == Acknowledge(old(Model()), fwd, ev)
    {
      hide GetReceiveWindow, WriteAck, CountFin;
      var window := ReceiveWindow(ev.free2);
      var prev := recvWindow;
      recvWindow := window;
      if fwd || (prev == 0 && window > 0) {
        if fwd && forward == [] && state == CloseWait {
          CountsFin();
        }
        Ack(ev.ackOk);
        if ev.ackOk {
          Touch(ev.now);
        }
      }
    }

    /** What follows a FIN that was written. */
    method SentFin()
      modifies this
      ensures var c := old(Model());
              Model() == c.(s := c.s.(localSeq := Plus(c.s.localSeq, 1)), h := c.h.(finSent := c.h.finSent + 1))
      ensures state == old(state)
    {
      hide Plus;
      localSeq := Plus(localSeq, 1);
      h := h.(finSent := h.finSent + 1);
    }

    method FinAck(ok: bool)
      modifies this
      ensures Model() == SendFin(old(Model()), ok)
    {
      hide WriteTcp, Plus;
      Log([], false, true, true, false, 0);
      if ok {
        SentFin();
      } else {
        state := Closing;
      }
      if state == Established {
        state := FinWait1;
      } else if state == CloseWait {
        state := LastAck;
      }
    }

    method CloseIt()
      modifies this
      ensures Model() == CloseSocket(old(Model()))
    {
      socketOpen := false;
      h := h.(closes := h.closes + 1);
    }

    method Eof(ok: bool)
      modifies this
      ensures Model() == HandleEof(old(Model()), ok)
    {
      hide SendFin, WriteRst;
      if forward == [] {
        FinAck(ok);
      } else {
        Rst();
      }
      CloseIt();
    }

    /** What the DNS parser leaves in the buffer. */
    method Parse(data: Chunk, v: DnsMessage.Verdict) returns (relayed: Chunk)
      ensures relayed == Passed(dns, data, v)
    {
      hide DnsMessage.Rewritten;
      relayed := data;
      if dns && |data| > 2 {
        var rest := ParseMessage(data[2..], v);
        relayed := data[..2] + rest;
      }
    }

    method ParseMessage(message: Chunk, v: DnsMessage.Verdict) returns (left: Chunk)
      ensures left == DnsMessage.Rewritten(message, v)
    {
      hide DnsMessage.Rewritten;
      var buffer := new u8[|message|](i requires 0 <= i < |message| => message[i]);
      assert buffer[..|message|] == message;
      var newlen, calls := DnsMessage.ParseDnsResponse(buffer, |message|, v);
      left := buffer[..|message|];
    }

    method Relay(data: Chunk, v: DnsMessage.Verdict, ok: bool)
      modifies this
      ensures Model() == HandleData(old(Model()), data, v, ok)
    {
      hide SendData, Passed;
      received := received + |data|;
      var relayed := Parse(data, v);
      h := h.(read := h.read + data, relayed := h.relayed + relayed);
      WriteData(relayed, ok);
    }

    method WriteData(data: Chunk, ok: bool)
      modifies this
      ensures Model() == SendData(old(Model()), data, ok)
    {
      hide Plus, Minus, RemotePos, LocalPos;
      Log(data, false, true, false, false, 0);
      if ok {
        localSeq := Plus(localSeq, |data|);
        unconfirmed := (unconfirmed + 1) % 0x1_0000;
        h := h.(written := h.written + |data|);
      } else {
        state := Closing;
      }
    }

    method Read(ev: SocketEvent)
      modifies this
      ensures Model() == ReadSocket(old(Model()), ev)
    {
      hide GetSendWindow, HandleEof, HandleData, WriteRst;
      if state == Established || state == CloseWait {
        var window := SendWindow();
        if ev.readable && window > 0 {
          time := ev.now;
          var size := if window > mss then mss else window;
          match ev.recv {
            case RecvRetry =>
            case RecvFailed =>
              Rst();
            case EndOfFile =>
              Eof(ev.writeOk);
            case Received(data) =>
              var got := if |data| <= size then data else data[..size];
              if got == [] {
                Eof(ev.writeOk);
              } else {
                Relay(got, ev.verdict, ev.writeOk);
              }
          }
        }
      }
    }

    /** What follows a SYN-ACK that was written. */
    method Establish(now: int)
      modifies this
      ensures var c := old(Model());
              Model() == c.(s := c.s.(time := now, localSeq := Plus(c.s.localSeq, 1), state := SynRecv),
                            h := c.h.(synSent := c.h.synSent + 1))
    {
      hide Plus;
      time := now;
      localSeq := Plus(localSeq, 1);
      h := h.(synSent := h.synSent + 1);
      state := SynRecv;
    }

    method Connect(ev: SocketEvent)
      modifies this
      ensures Model() == Connected(old(Model()), ev)
    {
      hide WriteTcp, CountSyn;
      CountsSyn();
      Log([], true, true, false, false, 0);
      if ev.writeOk {
        Establish(ev.now);
      } else {
        state := Closing;
      }
    }

    method CheckSocket(ev: SocketEvent)
      modifies this
      ensures Model() == CheckTcpSocket(old(Model()), ev)
    {
      hide Forward, Acknowledge, ReadSocket, WriteRst, Connected;
      if ev.err {
        time := ev.now;
        Rst();
      } else if state == Listen {
        if ev.writable {
          Connect(ev);
        }
      } else {
        var fwd := false;
        if ev.writable {
          fwd := ForwardData(ev.free, ev.sends);
        }
        AckForwarded(fwd, ev);
        Read(ev);
      }
    }

    // -------------------------------------------------------------- monitoring and ageing

    method Probe(m: MonitorInput)
      modifies this
      ensures Model() == KeepAlive(old(Model()), m)
      ensures unchanged(`forward, `remoteSeq, `watchIn, `watchOut)
    {
      if m.ms - lastKeepAlive > EPOLL_MIN_CHECK {
        lastKeepAlive := m.ms;
        Log([], false, true, false, false, 1);
        if !m.ackOk {
          state := Closing;
        }
      }
    }

    method Monitor(m: MonitorInput) returns (recheck: bool)
      modifies this
      ensures (Model(), recheck) == MonitorTcpSession(old(Model()), m)
    {
      hide GetSendWindow, KeepAlive;
      recheck := false;
      var wantIn, wantOut := false, false;
      if state == Listen {
        wantOut := true;
      } else if state == Established || state == CloseWait {
        var window := SendWindow();
        if window > 0 {
          wantIn := true;
        } else {
          recheck := true;
          Probe(m);
        }
        if forward != [] {
          if forward[0].start == remoteSeq && 0 <= |forward[0].data| - forward[0].sent < m.free {
            wantOut := true;
          } else {
            recheck := true;
          }
        }
      }
      Watch(wantIn, wantOut, m.epollOk);
    }

    /** Telling epoll what to watch, if that has changed. */
    method Watch(wantIn: bool, wantOut: bool, ok: bool)
      modifies this
      ensures var c := old(Model());
              var e := c.(s := c.s.(watchIn := wantIn, watchOut := wantOut));
              Model() == if wantIn == c.s.watchIn && wantOut == c.s.watchOut then c
                         else if ok then e else e.(s := e.s.(state := Closing))
    {
      if wantIn != watchIn || wantOut != watchOut {
        watchIn, watchOut := wantIn, wantOut;
        if !ok {
          state := Closing;
        }
      }
    }

    method CheckSession(a: AgeInput) returns (del: bool)
      requires a.maxSessions > 0
      modifies this
      ensures (Model(), del) == CheckTcpSession(old(Model()), a)
    {
      hide GetTcpTimeout, WriteRst, Expire, Finish, Account;
      ExpireIdle(a);
      FinishClosing(a);
      AccountUsage();
      del := state == Close && time + TCP_KEEP_TIMEOUT < a.now;
    }

    method ExpireIdle(a: AgeInput)
      requires a.maxSessions > 0
      modifies this
      ensures Model() == Expire(old(Model()), a)
    {
      hide GetTcpTimeout, WriteRst;
      if state != Closing && state != Close
         && time + GetTcpTimeout(state, a.sessions, a.maxSessions) < a.now {
        if state == Listen {
          state := Closing;
        } else {
          Rst();
        }
      }
    }

    method FinishClosing(a: AgeInput)
      modifies this
      ensures Model() == Finish(old(Model()), a)
    {
      if state == Closing {
        if socketOpen {
          CloseIt();
        }
        time := a.closeTime;
        state := Close;
      }
    }

    method AccountUsage()
      modifies this
      ensures Model() == Account(old(Model()))
    {
      if (state == Closing || state == Close) && (sent > 0 || received > 0) {
        h := h.(reports := h.reports + [(sent, received)]);
        sent, received := 0, 0;
      }
    }

    method TerminateIt()
      modifies this
      ensures Model() == Terminate(old(Model()))
    {
      hide WriteRst;
      if state != Closing && state != Close {
        Rst();
      }
    }

    /** Dispatch as in session.c: socket events and monitoring reach open sockets only. */
    method TakeStep(step: Step)
      modifies this
      ensures Model() == Apply(old(Model()), step)
    {
      hide HandleTcp, CheckTcpSocket, MonitorTcpSession, CheckTcpSession;
      match step {
        case FromApp(pkt, now, ok) =>
          Handle(pkt, now, ok);
        case OnSocket(ev) =>
          if socketOpen { CheckSocket(ev); }
        case OnMonitor(m) =>
          if socketOpen { var _ := Monitor(m); }
        case OnAge(a) =>
          if a.maxSessions > 0 { var _ := CheckSession(a); }
        case Disallow =>
          TerminateIt();
      }
    }
  }
}
