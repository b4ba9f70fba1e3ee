/** The per-connection record of tcp.c and what each of its entry points does to it, as functions on
    values.  `TcpSession.Session` is the same record updated in place; its methods are proved equal
    to these functions, and `TcpInvariants` proves properties of every run of them. */
module TcpModel {
  import opened Serial
  import DnsMessage

  const TCP_INIT_TIMEOUT := 20
  const TCP_IDLE_TIMEOUT := 3600
  const TCP_CLOSE_TIMEOUT := 20
  const TCP_KEEP_TIMEOUT := 300
  const EPOLL_MIN_CHECK := 100
  const MAX_SCALE := 14  // section 2.3 of RFC 7323

  datatype State = Listen | SynRecv | Established | FinWait1 | CloseWait | LastAck | Closing | Close

  /** Lengths of packet data are `uint16_t`. */
  type Chunk = d: seq<u8> | |d| < 0x1_0000

  /** One queued piece of the app's byte stream; `len` of the C struct is `|data|`. */
  datatype Segment = Segment(start: u32, data: Chunk, sent: u16, psh: bool)

  /** `struct tcp_session` with the socket of its `ng_session`; `open` is `socket >= 0`. */
  datatype Tcp = Tcp(
    state: State,
    open: bool,
    watchIn: bool,            // EPOLLIN and EPOLLOUT of ev.events
    watchOut: bool,
    remoteStart: u32,
    remoteSeq: u32,
    localStart: u32,
    localSeq: u32,
    acked: u32,
    recvScale: nat,
    sendScale: nat,
    recvWindow: u32,
    sendWindow: u32,
    mss: u16,
    dns: bool,                // the destination port is 53
    unconfirmed: u16,
    sent: nat,
    received: nat,
    time: int,
    lastKeepAlive: int,
    forward: seq<Segment>)

  /** A segment written to the tun device. */
  datatype Packet = Packet(
    seqNo: u32, ackNo: u32, data: seq<u8>, synFlag: bool, ackFlag: bool, finFlag: bool, rstFlag: bool)

  /** A packet as logged, with the unbounded stream positions its 32-bit numbers stand for. */
  datatype Emission = Emission(packet: Packet, seqPos: nat, ackPos: int)

  /** What a connection has done so far; nothing in it influences a step. */
  datatype History = History(
    accepted: seq<u8>,        // bytes send() took, in order
    forwarded: nat,           // bytes of segments forwarded completely
    synSeen: nat,             // times remote_seq moved over a SYN or a FIN
    finSeen: nat,
    read: seq<u8>,            // bytes recv() gave, in order
    relayed: seq<u8>,         // the same after parse_dns_response, as handed to write_data
    written: nat,             // bytes of relayed whose packet was written to the tun device
    synSent: nat,             // times local_seq moved over a SYN or a FIN
    finSent: nat,
    packets: seq<Emission>,
    maxWindow: nat,           // largest window advertised by the app
    closes: nat,              // calls of close() on the socket
    reports: seq<(nat, nat)>) // calls of account_usage

  datatype Conn = Conn(s: Tcp, h: History)

  function RemotePos(h: History): nat { h.synSeen + h.forwarded + h.finSeen }

  function LocalPos(h: History): nat { h.synSent + h.written + h.finSent }

  // ---------------------------------------------------------------- writing to the tun device

  /** `write_tcp`; `back` is 1 while a keep-alive has decremented `remote_seq`. */
  function WriteTcp(c: Conn, data: seq<u8>, syn: bool, ack: bool, fin: bool, rst: bool, back: nat): Conn
    requires back <= 1
  {
    var p := Packet(c.s.localSeq, if ack then Minus(c.s.remoteSeq, back) else 0, data, syn, ack, fin, rst);
    c.(h := c.h.(packets := c.h.packets + [Emission(p, LocalPos(c.h), RemotePos(c.h) - back)]))
  }

  /** What `write_syn_ack`, `write_ack`, `write_data` and `write_fin_ack` do after `write_tcp`. */
  function ClosingUnless(c: Conn, ok: bool): Conn {
    if ok then c else c.(s := c.s.(state := Closing))
  }

  function WriteAck(c: Conn, ok: bool): Conn {
    ClosingUnless(WriteTcp(c, [], false, true, false, false, 0), ok)
  }

  function CountSyn(c: Conn): Conn {
    c.(s := c.s.(remoteSeq := Plus(c.s.remoteSeq, 1)), h := c.h.(synSeen := c.h.synSeen + 1))
  }

  function CountFin(c: Conn): Conn {
    c.(s := c.s.(remoteSeq := Plus(c.s.remoteSeq, 1)), h := c.h.(finSeen := c.h.finSeen + 1))
  }

  function WriteRst(c: Conn): Conn {
    var listening := c.s.state == Listen;
    var d := WriteTcp(if listening then CountSyn(c) else c, [], false, listening, false, true, 0);
    if d.s.state != Close then d.(s := d.s.(state := Closing)) else d
  }

  // ---------------------------------------------------------------- windows and timeouts

  /** `(uint32_t) window << scale`. */
  function Scaled(window: u16, scale: nat): u32 {
    U32(window * Pow2(scale))
  }

  /** `get_send_window`: note 0x10000 where 2^32 would undo the wrap. */
  function GetSendWindow(s: Tcp): u32 {
    var behind := if s.acked <= s.localSeq then s.localSeq - s.acked
                  else U32(0x1_0000 + s.localSeq - s.acked);
    var padded := U32(behind + (s.unconfirmed + 1) * 40);
    if padded < s.sendWindow then s.sendWindow - padded else 0
  }

  /** The sum in `get_receive_window`; `len - sent` is an `int` added to a `uint32_t`. */
  function ToForward(q: seq<Segment>): u32 {
    if q == [] then 0 else U32(|q[0].data| - q[0].sent + ToForward(q[1..]))
  }

  /** `get_receive_window`, given the `free` bytes `get_receive_buffer` reports. */
  function GetReceiveWindow(s: Tcp, free: u32): u32 {
    var max := Scaled(0xFFFF, s.recvScale);
    var window := if free > max then max else free;
    if ToForward(s.forward) < window then window - ToForward(s.forward) else 0
  }

  /** C's integer division, which truncates toward zero. */
  function Quotient(a: int, b: int): int
    requires b > 0
  {
    if a >= 0 then a / b else -((-a) / b)
  }

  function GetTcpTimeout(state: State, sessions: nat, maxSessions: nat): int
    requires maxSessions > 0
  {
    var base := if state == Listen || state == SynRecv then TCP_INIT_TIMEOUT
                else if state == Established then TCP_IDLE_TIMEOUT
                else TCP_CLOSE_TIMEOUT;
    Quotient(base * (100 - sessions * 100 / maxSessions), 100)
  }

  // ---------------------------------------------------------------- packets from the app

  datatype InPacket = InPacket(
    seqNo: u32, ackNo: u32, window: u16,
    syn: bool, ack: bool, fin: bool, rst: bool, psh: bool, urg: bool,
    data: Chunk)

  /** The linked-list walk of `queue_tcp` from its first node on. */
  function Insert(q: seq<Segment>, seg: Segment): seq<Segment> {
    if q == [] || CompareU32(q[0].start, seg.start) > 0 then [seg] + q
    else if CompareU32(q[0].start, seg.start) < 0 then [q[0]] + Insert(q[1..], seg)
    else [if |q[0].data| == |seg.data| then q[0] else q[0].(data := seg.data)] + q[1..]
  }

  function QueueTcp(c: Conn, pkt: InPacket): Conn {
    if CompareU32(pkt.seqNo, c.s.remoteSeq) < 0 then c
    else c.(s := c.s.(forward := Insert(c.s.forward, Segment(pkt.seqNo, pkt.data, 0, pkt.psh))))
  }

  function MaxNat(a: nat, b: nat): nat { if a > b then a else b }

  /** The start of the "handling" branch: time, window and counter. */
  function Refresh(c: Conn, pkt: InPacket, now: int): Conn {
    var w := Scaled(pkt.window, c.s.sendScale);
    c.(s := c.s.(time := if pkt.syn then c.s.time else now, sendWindow := w, unconfirmed := 0),
       h := c.h.(maxWindow := MaxNat(c.h.maxWindow, w)))
  }

  function HandleFin(c: Conn, ok: bool): Conn {
    match c.s.state
    case Established =>
      if c.s.forward == [] then
        var d := WriteAck(CountFin(c), ok);
        if ok then d.(s := d.s.(state := CloseWait)) else d
      else
        c.(s := c.s.(state := CloseWait))
    case FinWait1 =>
      var d := WriteAck(CountFin(c), ok);
      if ok then d.(s := d.s.(state := Close)) else d
    case _ => c
  }

  function HandleAck(c: Conn, ackNo: u32): Conn {
    var d := c.(s := c.s.(acked := ackNo));
    match c.s.state
    case SynRecv => d.(s := d.s.(state := Established))
    case LastAck => d.(s := d.s.(state := Closing))
    case _ => d
  }

  /** The flag processing that follows the data; `ok` is the outcome of `write_ack`. */
  function HandleFlags(c: Conn, pkt: InPacket, ok: bool): Conn {
    if pkt.rst then c.(s := c.s.(state := Closing))
    else if !pkt.ack || pkt.ackNo == c.s.localSeq then
      if pkt.syn then c
      else if pkt.fin then HandleFin(c, ok)
      else if pkt.ack then HandleAck(c, pkt.ackNo)
      else c
    else if Plus(pkt.ackNo, 1) == c.s.localSeq then c
    else if CompareU32(pkt.ackNo, c.s.localSeq) < 0 then
      if CompareU32(pkt.ackNo, c.s.acked) <= 0 then c else c.(s := c.s.(acked := pkt.ackNo))
    else WriteRst(c)
  }

  /** `handle_tcp` for a packet whose session exists. */
  function HandleTcp(c: Conn, pkt: InPacket, now: int, ok: bool): Conn {
    if pkt.urg then c
    else if c.s.state == Closing || c.s.state == Close then WriteRst(c)
    else
      var d := Refresh(c, pkt, now);
      if pkt.data != [] && (!d.s.open || d.s.state == CloseWait) then WriteRst(d)
      else HandleFlags(if pkt.data != [] then QueueTcp(d, pkt) else d, pkt, ok)
  }

  /** `handle_tcp` registering a session for a SYN whose socket could be opened: `isn` is `rand()`, and
      a session that is not allowed is reset at once. */
  function NewSession(pkt: InPacket, dns: bool, isn: u32, mss: u16, scale: nat, free: u32, now: int, allowed: bool)
    : Conn
  {
    var w := Scaled(pkt.window, scale);
    var synData := if pkt.data == [] then [] else [Segment(pkt.seqNo, pkt.data, 0, pkt.psh)];
    var s := Tcp(Listen, true, false, true, pkt.seqNo, pkt.seqNo, isn, isn, 0, scale, scale, 0, w, mss, dns,
                 0, 0, 0, now, 0, synData);
    var c := Conn(s.(recvWindow := GetReceiveWindow(s, free)), History([], 0, 0, 0, [], [], 0, 0, 0, [], w, 0, []));
    if allowed then c else WriteRst(c)
  }

  // ---------------------------------------------------------------- socket events

  /** The outcome of one send(); a count beyond what was offered cannot happen and is cut. */
  datatype SendResult = Sent(count: nat) | SendRetry | SendFailed

  /** The outcome of recv(). */
  datatype RecvResult = Received(data: seq<u8>) | EndOfFile | RecvRetry | RecvFailed

  datatype SocketEvent = SocketEvent(
    err: bool, readable: bool, writable: bool,
    free: u32,                // get_receive_buffer before the forward loop
    sends: seq<SendResult>,   // one per send() call
    free2: u32,               // get_receive_buffer inside get_receive_window
    recv: RecvResult,
    verdict: DnsMessage.Verdict,
    ackOk: bool, writeOk: bool,
    now: int)

  predicate HeadReady(s: Tcp, free: nat) {
    && s.forward != []
    && s.forward[0].start == s.remoteSeq
    && 0 <= |s.forward[0].data| - s.forward[0].sent < free
  }

  /** One successful send() of `count` bytes of the head segment. */
  function TakeHead(c: Conn, count: nat): Conn
    requires c.s.forward != []
    requires c.s.forward[0].sent + count <= |c.s.forward[0].data|
  {
    var seg := c.s.forward[0];
    var done := seg.sent + count;
    var h := c.h.(accepted := c.h.accepted + seg.data[seg.sent..done]);
    var s := c.s.(sent := c.s.sent + count);
    if done == |seg.data| then
      Conn(s.(remoteSeq := Plus(seg.start, done), forward := s.forward[1..]), h.(forwarded := h.forwarded + done))
    else
      Conn(s.(forward := [seg.(sent := done)] + s.forward[1..]), h)
  }

  /** The forward loop; the flag is `fwd`. */
  function Forward(c: Conn, free: nat, sends: seq<SendResult>, fwd: bool): (r: (Conn, bool))
    decreases |sends|
  {
    if !HeadReady(c.s, free) || sends == [] then (c, fwd)
    else
      match sends[0]
      case SendRetry => (c, fwd)
      case SendFailed => (WriteRst(c), fwd)
      case Sent(count) =>
        var offered := |c.s.forward[0].data| - c.s.forward[0].sent;
        var n := if count <= offered then count else offered;
        var d := TakeHead(c, n);
        if n == offered then Forward(d, free - n, sends[1..], true) else (d, true)
  }

  /** The new receive window and the ACK for what was forwarded. */
  function Acknowledge(c: Conn, fwd: bool, ev: SocketEvent): Conn {
    var window := GetReceiveWindow(c.s, ev.free2);
    var prev := c.s.recvWindow;
    var d := c.(s := c.s.(recvWindow := window));
    if fwd || (prev == 0 && window > 0) then
      var e := WriteAck(if fwd && d.s.forward == [] && d.s.state == CloseWait then CountFin(d) else d, ev.ackOk);
      if ev.ackOk then e.(s := e.s.(time := ev.now)) else e
    else d
  }

  function CloseSocket(c: Conn): Conn {
    c.(s := c.s.(open := false), h := c.h.(closes := c.h.closes + 1))
  }

  /** `write_fin_ack` and what follows it. */
  function SendFin(c: Conn, ok: bool): Conn {
    var w := ClosingUnless(WriteTcp(c, [], false, true, true, false, 0), ok);
    var l := if ok then w.(s := w.s.(localSeq := Plus(w.s.localSeq, 1)), h := w.h.(finSent := w.h.finSent + 1)) else w;
    match l.s.state
    case Established => l.(s := l.s.(state := FinWait1))
    case CloseWait => l.(s := l.s.(state := LastAck))
    case _ => l
  }

  function HandleEof(c: Conn, ok: bool): Conn {
    CloseSocket(if c.s.forward == [] then SendFin(c, ok) else WriteRst(c))
  }

  /** What is relayed of the bytes of one recv(): to port 53, the message behind the two length bytes goes
      through `parse_dns_response`. */
  function Passed(dns: bool, data: seq<u8>, verdict: DnsMessage.Verdict): (r: seq<u8>)
    ensures |r| == |data| && (!dns ==> r == data)
  {
    if dns && |data| > 2 then data[..2] + DnsMessage.Rewritten(data[2..], verdict) else data
  }

  function CountRead(c: Conn, data: seq<u8>, relayed: seq<u8>): Conn {
    c.(s := c.s.(received := c.s.received + |data|),
       h := c.h.(read := c.h.read + data, relayed := c.h.relayed + relayed))
  }

  /** `write_data` and what follows it. */
  function SendData(c: Conn, data: seq<u8>, ok: bool): Conn
    requires |data| < 0x1_0000
  {
    var d := ClosingUnless(WriteTcp(c, data, false, true, false, false, 0), ok);
    if ok then
      d.(s := d.s.(localSeq := Plus(d.s.localSeq, |data|), unconfirmed := (d.s.unconfirmed + 1) % 0x1_0000),
         h := d.h.(written := d.h.written + |data|))
    else d
  }

  function HandleData(c: Conn, data: seq<u8>, verdict: DnsMessage.Verdict, ok: bool): Conn
    requires |data| < 0x1_0000
  {
    var relayed := Passed(c.s.dns, data, verdict);
    SendData(CountRead(c, data, relayed), relayed, ok)
  }

  /** recv() into a buffer of min(send window, mss) bytes. */
  function ReadSocket(c: Conn, ev: SocketEvent): Conn {
    var window := GetSendWindow(c.s);
    if (c.s.state == Established || c.s.state == CloseWait) && ev.readable && window > 0 then
      var t := c.(s := c.s.(time := ev.now));
      var size := if window > c.s.mss then c.s.mss else window;
      match ev.recv
      case RecvRetry => t
      case RecvFailed => WriteRst(t)
      case EndOfFile => HandleEof(t, ev.writeOk)
      case Received(data) =>
        var got := if |data| <= size then data else data[..size];
        if got == [] then HandleEof(t, ev.writeOk) else HandleData(t, got, ev.verdict, ev.writeOk)
    else c
  }

  /** A connected socket: SYN-ACK to the app. */
  function Connected(c: Conn, ev: SocketEvent): Conn {
    var d := CountSyn(c);
    var e := ClosingUnless(WriteTcp(d, [], true, true, false, false, 0), ev.writeOk);
    if ev.writeOk then
      e.(s := e.s.(time := ev.now, localSeq := Plus(e.s.localSeq, 1), state := SynRecv),
         h := e.h.(synSent := e.h.synSent + 1))
    else e
  }

  /** `check_tcp_socket`. */
  function CheckTcpSocket(c: Conn, ev: SocketEvent): Conn
  {
    if ev.err then WriteRst(c.(s := c.s.(time := ev.now)))
    else if c.s.state == Listen then (if ev.writable then Connected(c, ev) else c)
    else
      var (d, fwd) := if ev.writable then Forward(c, ev.free, ev.sends, false) else (c, false);
      ReadSocket(Acknowledge(d, fwd, ev), ev)
  }

  // ---------------------------------------------------------------- monitoring and ageing

  datatype MonitorInput = MonitorInput(free: u32, ms: int, ackOk: bool, epollOk: bool)

  function KeepAlive(c: Conn, m: MonitorInput): Conn {
    if m.ms - c.s.lastKeepAlive > EPOLL_MIN_CHECK then
      var d := c.(s := c.s.(lastKeepAlive := m.ms));
      ClosingUnless(WriteTcp(d, [], false, true, false, false, 1), m.ackOk)
    else c
  }

  /** `monitor_tcp_session`; the second component is `recheck`. */
  function MonitorTcpSession(c: Conn, m: MonitorInput): (Conn, bool) {
    var relaying := c.s.state == Established || c.s.state == CloseWait;
    var starved := relaying && GetSendWindow(c.s) == 0;
    var d := if starved then KeepAlive(c, m) else c;
    var wantIn := relaying && !starved;
    var wantOut := c.s.state == Listen || (relaying && HeadReady(c.s, m.free));
    var recheck := starved || (relaying && c.s.forward != [] && !HeadReady(c.s, m.free));
    if wantIn != c.s.watchIn || wantOut != c.s.watchOut then
      var e := d.(s := d.s.(watchIn := wantIn, watchOut := wantOut));
      (if m.epollOk then e else e.(s := e.s.(state := Closing)), recheck)
    else (d, recheck)
  }

  datatype AgeInput = AgeInput(now: int, closeTime: int, sessions: nat, maxSessions: nat)

  /** The timeout test of `check_tcp_session`. */
  function Expire(c: Conn, a: AgeInput): Conn
    requires a.maxSessions > 0
  {
    if c.s.state != Closing && c.s.state != Close
       && c.s.time + GetTcpTimeout(c.s.state, a.sessions, a.maxSessions) < a.now
    then if c.s.state == Listen then c.(s := c.s.(state := Closing)) else WriteRst(c)
    else c
  }

  /** The closing part: an open socket is closed and the session rests in Close. */
  function Finish(c: Conn, a: AgeInput): Conn {
    if c.s.state == Closing then
      var d := if c.s.open then CloseSocket(c) else c;
      d.(s := d.s.(time := a.closeTime, state := Close))
    else c
  }

  function Account(c: Conn): Conn {
    if (c.s.state == Closing || c.s.state == Close) && (c.s.sent > 0 || c.s.received > 0) then
      Conn(c.s.(sent := 0, received := 0), c.h.(reports := c.h.reports + [(c.s.sent, c.s.received)]))
    else c
  }

  /** `check_tcp_session`; the second component says whether the caller deletes the session. */
  function CheckTcpSession(c: Conn, a: AgeInput): (Conn, bool)
    requires a.maxSessions > 0
  {
    var d := Account(Finish(Expire(c, a), a));
    (d, d.s.state == Close && d.s.time + TCP_KEEP_TIMEOUT < a.now)
  }

  /** What `check_allowed` does to a session that the rules do not allow any more. */
  function Terminate(c: Conn): Conn {
    if c.s.state != Closing && c.s.state != Close then WriteRst(c) else c
  }

  // ---------------------------------------------------------------- runs

  datatype Step =
    | FromApp(pkt: InPacket, now: int, ok: bool)
    | OnSocket(ev: SocketEvent)
    | OnMonitor(monitor: MonitorInput)
    | OnAge(age: AgeInput)
    | Disallow

  /** One step of the event loop; session.c delivers socket events and monitors open sockets only, and calls
      `check_allowed` when it starts. */
  function Apply(c: Conn, step: Step): Conn {
    match step
    case FromApp(pkt, now, ok) => HandleTcp(c, pkt, now, ok)
    case OnSocket(ev) => if c.s.open then CheckTcpSocket(c, ev) else c
    case OnMonitor(m) => if c.s.open then MonitorTcpSession(c, m).0 else c
    case OnAge(a) => if a.maxSessions > 0 then CheckTcpSession(c, a).0 else c
    case Disallow => Terminate(c)
  }

  function Run(c: Conn, steps: seq<Step>): Conn
    decreases |steps|
  {
    if steps == [] then c else Run(Apply(c, steps[0]), steps[1..])
  }
}
