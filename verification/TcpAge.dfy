/** Ageing: how long a session may be idle, what becomes of it then, and when its record goes. */
module TcpAge {
  import opened Serial
  import opened TcpModel
  import TcpFlow

  /** The seconds a session may be idle while no other session weighs in: 20 until it is established, an hour then, 20
      again once it is closing. */
  function Patience(state: State): nat {
    match state
    case Listen => 20
    case SynRecv => 20
    case Established => 3600
    case _ => 20
  }

  /** The whole percentage that `sessions` are of `maxSessions`. */
  predicate Share(sessions: nat, maxSessions: nat, percent: nat) {
    percent * maxSessions <= 100 * sessions < (percent + 1) * maxSessions
  }

  /** The timeout is that share less, in whole seconds; at the limit of sessions and beyond none is left. */
  lemma TimeoutShrinks(state: State, sessions: nat, maxSessions: nat, percent: nat)
    requires maxSessions > 0 && Share(sessions, maxSessions, percent)
    ensures percent <= 100 ==>
              100 * GetTcpTimeout(state, sessions, maxSessions) <= Patience(state) * (100 - percent)
              < 100 * GetTcpTimeout(state, sessions, maxSessions) + 100
    ensures percent >= 100 ==> GetTcpTimeout(state, sessions, maxSessions) <= 0
  {
    hide Quotient;
    ShareIsQuotient(sessions, maxSessions, percent);
    QuotientOf(Patience(state), 100 - percent);
  }

  lemma ShareIsQuotient(sessions: nat, maxSessions: nat, percent: nat)
    requires maxSessions > 0 && Share(sessions, maxSessions, percent)
    ensures sessions * 100 / maxSessions == percent
  {
    var x, q := sessions * 100, sessions * 100 / maxSessions;
    QuotientBounds(x, maxSessions);
    if q < percent { TcpFlow.MulMono(q + 1, maxSessions, percent, maxSessions); }
    if q > percent { TcpFlow.MulMono(percent + 1, maxSessions, q, maxSessions); }
  }

  lemma QuotientBounds(x: nat, m: nat)
    requires m > 0
    ensures x / m * m <= x < (x / m + 1) * m
  {
    assert x == m * (x / m) + x % m;
    assert (x / m + 1) * m == x / m * m + m;
  }

  lemma QuotientOf(base: nat, left: int)
    ensures left >= 0 ==> 100 * Quotient(base * left, 100) <= base * left < 100 * Quotient(base * left, 100) + 100
    ensures left <= 0 ==> Quotient(base * left, 100) <= 0
  {
    if left >= 0 { assert base * left >= 0; } else { assert base * left <= 0; }
  }

  /** Live sessions are in use. */
  predicate Live(s: Tcp) {
    s.state != Closing && s.state != Close
  }

  /** The session has not been used for longer than its timeout. */
  predicate Idle(s: Tcp, a: AgeInput)
    requires a.maxSessions > 0
  {
    s.time + GetTcpTimeout(s.state, a.sessions, a.maxSessions) < a.now
  }

  /** Ageing ends a session exactly if it is idle or was reset before: the app is told unless the session never
      connected, the socket is closed, the moment is kept, the bytes moved are reported and forgotten.  Any other live
      session is left as it was. */
  lemma AgeExactly(c: Conn, a: AgeInput)
    requires a.maxSessions > 0
    ensures var d := CheckTcpSession(c, a).0;
            if Live(c.s) && !Idle(c.s, a) then d == c
            else if c.s.state == Close then d.s.state == Close && d.s.time == c.s.time && d.h.packets == c.h.packets
            else
              && d.s.state == Close && !d.s.open && d.s.time == a.closeTime
              && d.h.closes == c.h.closes + (if c.s.open then 1 else 0)
              && d.h.packets == c.h.packets + (if Live(c.s) && c.s.state != Listen then [Reset(c)] else [])
    ensures var d := CheckTcpSession(c, a).0;
            !Live(d.s) ==>
              && d.s.sent == 0 && d.s.received == 0
              && d.h.reports == c.h.reports + (if c.s.sent == 0 && c.s.received == 0 then []
                                               else [(c.s.sent, c.s.received)])
  {
    hide GetTcpTimeout, Minus;
  }

  /** The reset of a session that has counted its SYN. */
  function Reset(c: Conn): Emission {
    Emission(Packet(c.s.localSeq, 0, [], false, false, false, true), LocalPos(c.h), RemotePos(c.h))
  }

  /** A record is deleted exactly if the session is closed then and was closed more than 300 seconds ago. */
  lemma DeletedExactly(c: Conn, a: AgeInput)
    requires a.maxSessions > 0
    ensures var (d, del) := CheckTcpSession(c, a);
            del <==> if c.s.state == Close then c.s.time + 300 < a.now
                     else (!Live(c.s) || Idle(c.s, a)) && a.closeTime + 300 < a.now
  {
    hide GetTcpTimeout, Minus;
  }
}
