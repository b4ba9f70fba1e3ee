/** The UDP sessions of udp.c: their life cycle and the accounting of their traffic. */
module Udp {
  import TcpModel

  const UDP_TIMEOUT_53 := 15
  const UDP_TIMEOUT_ANY := 300
  const UDP_KEEP_TIMEOUT := 60

  datatype State = Active | Finishing | Closed | Blocked

  /** `struct udp_session` with the socket of its `ng_session`. */
  datatype Udp = Udp(state: State, open: bool, dns: bool, time: int, sent: nat, received: nat)

  /** What a session has done so far: bytes moved, `account_usage` calls, `close` calls. */
  datatype History = History(moved: (nat, nat), reports: seq<(nat, nat)>, closes: nat)

  datatype Conn = Conn(s: Udp, h: History)

  function NewSession(dns: bool, now: int): Conn {
    Conn(Udp(Active, true, dns, now, 0, 0), History((0, 0), [], 0))
  }

  /** `block_udp` leaves the two counters as it finds them in fresh memory. */
  function NewBlocked(dns: bool, now: int, sent: nat, received: nat): Conn {
    Conn(Udp(Blocked, false, dns, now, sent, received), History((0, 0), [], 0))
  }

  // ---------------------------------------------------------------- steps

  /** What becomes of a datagram from the app: answered from the hosts file, taken by the DHCP server, or
      given to `sendto`. */
  datatype Fate = Answered | Dhcp | SentOn | SendRetry | SendFailed

  /** `handle_udp` for an existing session. */
  function HandleUdp(c: Conn, length: nat, fate: Fate, now: int): Conn {
    if c.s.state != Active then c
    else
      match fate
      case Answered => if c.s.dns then c.(s := c.s.(state := Finishing)) else c
      case Dhcp => c
      case SentOn =>
        Conn(c.s.(time := now, sent := c.s.sent + length), c.h.(moved := (c.h.moved.0 + length, c.h.moved.1)))
      case SendRetry => c.(s := c.s.(time := now))
      case SendFailed => c.(s := c.s.(time := now, state := Finishing))
  }

  datatype Recv = Received(count: nat) | EndOfFile | RecvRetry | RecvFailed

  datatype SocketEvent = SocketEvent(err: bool, readable: bool, recv: Recv, writeOk: bool, now: int)

  /** `check_udp_socket`. */
  function CheckUdpSocket(c: Conn, ev: SocketEvent): Conn {
    if ev.err then c.(s := c.s.(time := ev.now, state := Finishing))
    else if !ev.readable then c
    else
      var d := c.(s := c.s.(time := ev.now));
      match ev.recv
      case RecvRetry => d
      case RecvFailed => d.(s := d.s.(state := Finishing))
      case EndOfFile => d.(s := d.s.(state := Finishing))
      case Received(n) =>
        var e := Conn(d.s.(received := d.s.received + n), d.h.(moved := (d.h.moved.0, d.h.moved.1 + n)));
        if !ev.writeOk || c.s.dns then e.(s := e.s.(state := Finishing)) else e
  }

  function GetUdpTimeout(dns: bool, sessions: nat, maxSessions: nat): int
    requires maxSessions > 0
  {
    TcpModel.Quotient((if dns then UDP_TIMEOUT_53 else UDP_TIMEOUT_ANY) * (100 - sessions * 100 / maxSessions), 100)
  }

  function Expire(c: Conn, a: TcpModel.AgeInput): Conn
    requires a.maxSessions > 0
  {
    if c.s.state == Active && c.s.time + GetUdpTimeout(c.s.dns, a.sessions, a.maxSessions) < a.now
    then c.(s := c.s.(state := Finishing)) else c
  }

  function Finish(c: Conn, a: TcpModel.AgeInput): Conn {
    if c.s.state == Finishing
    then Conn(c.s.(open := false, time := a.closeTime, state := Closed), c.h.(closes := c.h.closes + 1))
    else c
  }

  function Account(c: Conn): Conn {
    if c.s.state == Closed && (c.s.sent > 0 || c.s.received > 0)
    then Conn(c.s.(sent := 0, received := 0), c.h.(reports := c.h.reports + [(c.s.sent, c.s.received)]))
    else c
  }

  /** `check_udp_session`; the second component says whether the caller deletes the session. */
  function CheckUdpSession(c: Conn, a: TcpModel.AgeInput): (Conn, bool)
    requires a.maxSessions > 0
  {
    var d := Account(Finish(Expire(c, a), a));
    (d, (d.s.state == Closed || d.s.state == Blocked) && d.s.time + UDP_KEEP_TIMEOUT < a.now)
  }

  /** What `check_allowed` does to an active session that is not allowed any more. */
  function Terminate(c: Conn): Conn {
    if c.s.state == Active then c.(s := c.s.(state := Finishing)) else c
  }

  datatype Step =
    | FromApp(length: nat, fate: Fate, now: int)
    | OnSocket(ev: SocketEvent)
    | OnAge(age: TcpModel.AgeInput)
    | Disallow

  /** Socket events come from open sockets only. */
  function Apply(c: Conn, step: Step): Conn {
    match step
    case FromApp(length, fate, now) => HandleUdp(c, length, fate, now)
    case OnSocket(ev) => if c.s.open then CheckUdpSocket(c, ev) else c
    case OnAge(a) => if a.maxSessions > 0 then CheckUdpSession(c, a).0 else c
    case Disallow => Terminate(c)
  }

  function Run(c: Conn, steps: seq<Step>): Conn
    decreases |steps|
  {
    if steps == [] then c else Run(Apply(c, steps[0]), steps[1..])
  }

  // ---------------------------------------------------------------- invariants

  /** Active > Finishing > Closed; Blocked stands apart. */
  function Rank(state: State): nat {
    match state
    case Active => 2
    case Finishing => 1
    case Closed => 0
    case Blocked => 3
  }

  function Report(moved: (nat, nat)): seq<(nat, nat)> {
    if moved == (0, 0) then [] else [moved]
  }

  /** The socket is open until the session is closed, and then its whole traffic has been reported; a
      blocked session never has a socket nor reports anything. */
  ghost predicate Inv(c: Conn) {
    match c.s.state
    case Active => c.s.open && c.h.closes == 0 && c.h.reports == [] && c.h.moved == (c.s.sent, c.s.received)
    case Finishing => c.s.open && c.h.closes == 0 && c.h.reports == [] && c.h.moved == (c.s.sent, c.s.received)
    case Closed => !c.s.open && c.h.closes == 1 && c.h.reports == Report(c.h.moved) && c.s.sent == 0 == c.s.received
    case Blocked => !c.s.open && c.h.closes == 0 && c.h.reports == [] && c.h.moved == (0, 0)
  }

  /** States only go down, and a blocked session stays blocked. */
  ghost predicate Down(c: Conn, d: Conn) {
    d.s.state == c.s.state || (c.s.state != Blocked && d.s.state != Blocked && Rank(d.s.state) < Rank(c.s.state))
  }

  lemma StepInv(c: Conn, step: Step)
    requires Inv(c)
    ensures Inv(Apply(c, step)) && Down(c, Apply(c, step))
  {
    hide GetUdpTimeout;
    match step {
      case OnSocket(ev) => if c.s.open { SocketInv(c, ev); }
      case OnAge(a) => if a.maxSessions > 0 { AgeInv(c, a); }
      case _ =>
    }
  }

  lemma SocketInv(c: Conn, ev: SocketEvent)
    requires Inv(c) && c.s.open
    ensures Inv(CheckUdpSocket(c, ev)) && Down(c, CheckUdpSocket(c, ev))
  {
  }

  lemma AgeInv(c: Conn, a: TcpModel.AgeInput)
    requires Inv(c) && a.maxSessions > 0
    ensures Inv(CheckUdpSession(c, a).0) && Down(c, CheckUdpSession(c, a).0)
  {
    hide GetUdpTimeout;
  }

  lemma {:induction false} RunInv(c: Conn, steps: seq<Step>)
    requires Inv(c)
    ensures Inv(Run(c, steps)) && Down(c, Run(c, steps))
    decreases |steps|
  {
    hide Inv, Apply;
    if steps != [] {
      StepInv(c, steps[0]);
      RunInv(Apply(c, steps[0]), steps[1..]);
    }
  }

  /** For every run of a session up to the ageing step that deletes it: the socket has been closed exactly
      once, both counters are zero, and one report at most was made, of all bytes moved in each direction. */
  lemma UsageConserved(dns: bool, now: int, steps: seq<Step>, a: TcpModel.AgeInput)
    requires a.maxSessions > 0
    ensures var c := Run(NewSession(dns, now), steps);
            var (d, del) := CheckUdpSession(c, a);
            del ==> d.s.state == Closed && !d.s.open && d.h.closes == 1 && d.s.sent == 0 && d.s.received == 0
                    && d.h.reports == Report(d.h.moved) && d.s.time + UDP_KEEP_TIMEOUT < a.now
  {
    hide GetUdpTimeout, Run, Apply;
    var c0 := NewSession(dns, now);
    RunInv(c0, steps);
    AgeInv(Run(c0, steps), a);
  }

  /** A blocked session is never accounted for, whatever its counters hold, and owns no socket. */
  lemma BlockedReportsNothing(dns: bool, now: int, sent: nat, received: nat, steps: seq<Step>)
    ensures var c := Run(NewBlocked(dns, now, sent, received), steps);
            c.s.state == Blocked && c.h == History((0, 0), [], 0) && c.s.sent == sent && c.s.received == received
  {
    BlockedStays(NewBlocked(dns, now, sent, received), steps);
  }

  lemma {:induction false} BlockedStays(c: Conn, steps: seq<Step>)
    requires c.s.state == Blocked && !c.s.open
    ensures Run(c, steps) == c
    decreases |steps|
  {
    if steps != [] { BlockedStays(c, steps[1..]); }
  }

  // ---------------------------------------------------------------- the record in place

  /** The UDP part of an `ng_session`. */
  class Session {
    var state: State
    var open: bool
    const dns: bool
    var time: int
    var sent: nat
    var received: nat
    ghost var h: History

    ghost function Model(): Conn
      reads this
    {
      Conn(Udp(state, open, dns, time, sent, received), h)
    }

    constructor (dns: bool, now: int)
      ensures Model() == NewSession(dns, now)
    {
      this.dns := dns;
      state, open, time, sent, received := Active, true, now, 0, 0;
      h := History((0, 0), [], 0);
    }

    method Handle(length: nat, fate: Fate, now: int)
      modifies this
      ensures Model() == HandleUdp(old(Model()), length, fate, now)
    {
      if state != Active {
        return;
      }
      if fate == Answered {
        if dns {
          state := Finishing;
        }
        return;
      }
      if fate == Dhcp {
        return;
      }
      time := now;
      if fate == SentOn {
        sent := sent + length;
        h := h.(moved := (h.moved.0 + length, h.moved.1));
      } else if fate == SendFailed {
        state := Finishing;
      }
    }

    method CheckSocket(ev: SocketEvent)
      modifies this
      ensures Model() == CheckUdpSocket(old(Model()), ev)
    {
      if ev.err {
        time := ev.now;
        state := Finishing;
      } else if ev.readable {
        time := ev.now;
        if ev.recv.RecvFailed? || ev.recv.EndOfFile? {
          state := Finishing;
        } else if ev.recv.Received? {
          received := received + ev.recv.count;
          h := h.(moved := (h.moved.0, h.moved.1 + ev.recv.count));
          if !ev.writeOk {
            state := Finishing;
          } else if dns {
            state := Finishing;
          }
        }
      }
    }

    method Check(a: TcpModel.AgeInput) returns (del: bool)
      requires a.maxSessions > 0
      modifies this
      ensures (Model(), del) == CheckUdpSession(old(Model()), a)
    {
      var timeout := GetUdpTimeout(dns, a.sessions, a.maxSessions);
      if state == Active && time + timeout < a.now {
        state := Finishing;
      }
      if state == Finishing {
        open := false;
        h := h.(closes := h.closes + 1);
        time := a.closeTime;
        state := Closed;
      }
      if state == Closed && (sent > 0 || received > 0) {
        h := h.(reports := h.reports + [(sent, received)]);
        sent := 0;
        received := 0;
      }
      return (state == Closed || state == Blocked) && time + UDP_KEEP_TIMEOUT < a.now;
    }
  }
}
