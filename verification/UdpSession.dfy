/** What a UDP session does with each thing that happens to it, and how long it lives. */
module UdpSession {
  import TcpAge
  import opened Udp
  import TcpModel

  /** What ends an active session: a DNS query answered from the hosts file, a failing sendto(), an error or the end
      of the socket, a packet that cannot be written, the first response to a DNS query, and the rules. */
  predicate Ends(c: Conn, step: Step) {
    match step
    case FromApp(_, fate, _) => fate == SendFailed || (fate == Answered && c.s.dns)
    case OnSocket(ev) =>
      c.s.open && (ev.err || (ev.readable && (ev.recv.EndOfFile? || ev.recv.RecvFailed?
                                              || (ev.recv.Received? && (!ev.writeOk || c.s.dns)))))
    case OnAge(a) => a.maxSessions > 0 && Idle(c.s, a)
    case Disallow => true
  }

  /** Not used for longer than 15 seconds for DNS and 300 for anything else, less the share of sessions in use. */
  predicate Idle(s: Udp, a: TcpModel.AgeInput)
    requires a.maxSessions > 0
  {
    s.time + GetUdpTimeout(s.dns, a.sessions, a.maxSessions) < a.now
  }

  /** An active session stays active exactly if the step is none of these. */
  lemma EndsExactly(c: Conn, step: Step)
    requires c.s.state == Active
    ensures Apply(c, step).s.state == Active <==> !Ends(c, step)
  {
    hide GetUdpTimeout;
  }

  lemma TimeoutShrinks(dns: bool, sessions: nat, maxSessions: nat, percent: nat)
    requires maxSessions > 0 && TcpAge.Share(sessions, maxSessions, percent)
    ensures var t, patience := GetUdpTimeout(dns, sessions, maxSessions), if dns then 15 else 300;
            && (percent <= 100 ==> 100 * t <= patience * (100 - percent) < 100 * t + 100)
            && (percent >= 100 ==> t <= 0)
  {
    hide TcpModel.Quotient;
    TcpAge.ShareIsQuotient(sessions, maxSessions, percent);
    TcpAge.QuotientOf(if dns then 15 else 300, 100 - percent);
  }

  /** Bytes the step moves for an active session: to the server, and from it. */
  function Moves(c: Conn, step: Step): (nat, nat) {
    match step
    case FromApp(length, SentOn, _) => if c.s.state == Active then (length, 0) else (0, 0)
    case OnSocket(ev) =>
      if c.s.open && !ev.err && ev.readable && ev.recv.Received? then (0, ev.recv.count) else (0, 0)
    case _ => (0, 0)
  }

  function AllMoves(c: Conn, steps: seq<Step>): (nat, nat)
    decreases |steps|
  {
    if steps == [] then (0, 0)
    else
      var (a, b) := Moves(c, steps[0]);
      var (x, y) := AllMoves(Apply(c, steps[0]), steps[1..]);
      (a + x, b + y)
  }

  lemma StepMoves(c: Conn, step: Step)
    ensures var (a, b) := Moves(c, step);
            Apply(c, step).h.moved == (c.h.moved.0 + a, c.h.moved.1 + b)
  {
    hide GetUdpTimeout;
  }

  /** Over every run: what is counted, and in the end reported, is every byte sent on and received. */
  lemma {:induction false} RunMoves(c: Conn, steps: seq<Step>)
    ensures var (a, b) := AllMoves(c, steps);
            Run(c, steps).h.moved == (c.h.moved.0 + a, c.h.moved.1 + b)
    decreases |steps|
  {
    hide Apply, Moves;
    if steps != [] {
      StepMoves(c, steps[0]);
      RunMoves(Apply(c, steps[0]), steps[1..]);
    }
  }

  /** The last moment at which the session was used: a datagram tried, or an event of its socket. */
  predicate Uses(c: Conn, step: Step, now: int) {
    match step
    case FromApp(_, fate, t) => c.s.state == Active && (fate.SentOn? || fate.SendRetry? || fate.SendFailed?) && now == t
    case OnSocket(ev) => c.s.open && (ev.err || ev.readable) && now == ev.now
    case _ => false
  }

  lemma UseKept(c: Conn, step: Step)
    requires !step.OnAge?
    ensures (forall now :: !Uses(c, step, now)) ==> Apply(c, step).s.time == c.s.time
    ensures forall now :: Uses(c, step, now) ==> Apply(c, step).s.time == now
  {
    match step
    case FromApp(_, _, t) => assert Uses(c, step, t) || Apply(c, step).s.time == c.s.time;
    case OnSocket(ev) => assert Uses(c, step, ev.now) || Apply(c, step).s.time == c.s.time;
    case _ =>
  }

  /** Ageing: an idle session, or one that ended before, is closed at that moment and reported; any other is left. */
  lemma AgeExactly(c: Conn, a: TcpModel.AgeInput)
    requires a.maxSessions > 0 && Inv(c)
    ensures var (d, del) := CheckUdpSession(c, a);
            && (if (c.s.state == Active && Idle(c.s, a)) || c.s.state == Finishing then
                  d.s.state == Closed && !d.s.open && d.s.time == a.closeTime && d.h.closes == 1
                  && d.h.reports == Report(c.h.moved)
                else d.s.state == c.s.state && d.s.time == c.s.time && d.s.open == c.s.open && d.h == c.h)
            && (del <==> (d.s.state == Closed || d.s.state == Blocked) && d.s.time + 60 < a.now)
  {
    hide GetUdpTimeout;
  }
}
