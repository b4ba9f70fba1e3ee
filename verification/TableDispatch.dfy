/** Which session a packet or an event reaches, and what rules and limit make of it: session.c and ip.c in the terms
    of a user. */
module TableDispatch {
  import opened Serial
  import TcpConversation
  import opened SessionTable
  import TcpModel
  import Udp

  /** The packet has no session of its kind yet. */
  predicate Unknown(table: Table, p: TunPacket) {
    forall s | s in table :: if p.FromTcp? then !IsTcp(s, p.key) else !IsUdp(s, p.key)
  }

  lemma NotFound(table: Table, tcp: bool, key: Key)
    ensures Find(table, tcp, key) == |table| <==>
              forall s | s in table :: if tcp then !IsTcp(s, key) else !IsUdp(s, key)
  {
  }

  /** A packet of an app that is not allowed: UDP makes a blocked session without a socket; a SYN is dropped, or, if
      it names a server, gets a session that is reset at once. */
  lemma ForbiddenNeverConnects(table: Table, p: TunPacket, sessions: nat, maxSessions: nat, fwd53: bool)
    requires !p.allowed && sessions < maxSessions
    ensures var u := HandleIp(table, p, sessions, maxSessions, fwd53);
            && (p.FromIcmp? ==> u == table)
            && (p.FromUdp? && Unknown(table, p) && !(p.key.dest == 53 && !fwd53) ==>
                  |u| == |table| + 1 && u[1..] == table && u[0].UdpSession? && u[0].key == p.key
                  && u[0].udp.s.state == Udp.Blocked && !u[0].udp.s.open && u[0].udp.h.moved == (0, 0))
            && (p.FromTcp? && Unknown(table, p) && p.pkt.syn && !p.exempt && !p.sni ==> u == table)
            && (p.FromTcp? && Unknown(table, p) && p.pkt.syn && !p.pkt.urg && p.sni && p.socketOk ==>
                  |u| == |table| + 1 && u[1..] == table && u[0].TcpSession? && u[0].key == p.key
                  && u[0].tcp.s.state == TcpModel.Closing
                  && TcpConversation.Wire(u[0].tcp)
                     == [TcpModel.Packet(p.isn, Plus(p.pkt.seqNo, 1), [], false, true, false, true)])
  {
    hide TcpModel.GetReceiveWindow, TcpModel.Scaled, Plus;
    NotFound(table, p.FromTcp?, p.key);
    TcpConversation.MinusNone(if p.FromTcp? then p.pkt.seqNo else 0);
  }

  /** A packet of an app that is allowed, below the limit and with a socket: a UDP datagram is handled by a new active
      session, a SYN registered; anything else of TCP without a session is dropped. */
  lemma AllowedServed(table: Table, p: TunPacket, sessions: nat, maxSessions: nat, fwd53: bool)
    requires p.allowed && p.socketOk && sessions < maxSessions
    ensures var u := HandleIp(table, p, sessions, maxSessions, fwd53);
            && (p.FromUdp? && Unknown(table, p) ==>
                  |u| == |table| + 1 && u[1..] == table && u[0].UdpSession? && u[0].key == p.key && u[0].udp.s.open
                  && u[0].udp.s.dns == (p.key.dest == 53)
                  && (p.fate == Udp.SentOn ==> u[0].udp.s.state == Udp.Active && u[0].udp.s.sent == p.length))
            && (p.FromTcp? && Unknown(table, p) && p.pkt.syn && !p.pkt.urg ==>
                  |u| == |table| + 1 && u[1..] == table && u[0].TcpSession? && u[0].key == p.key
                  && u[0].tcp.s.state == TcpModel.Listen && u[0].tcp.s.open && u[0].tcp.h.packets == []
                  && u[0].tcp.s.dns == (p.key.dest == 53))
            && (p.FromTcp? && Unknown(table, p) && (!p.pkt.syn || p.pkt.urg) ==> u == table)
  {
    hide TcpModel.GetReceiveWindow, TcpModel.Scaled;
    NotFound(table, p.FromTcp?, p.key);
  }

  /** A live ping session between these hosts. */
  predicate Pings(s: Session, key: Key) {
    s.IcmpSession? && !s.stop && s.key.six == key.six && s.key.saddr == key.saddr && s.key.daddr == key.daddr
  }

  /** An echo of an app that is allowed goes out through the first live session of its hosts, or a new one if a socket
      opens; the session stops if that fails. */
  lemma EchoServed(table: Table, p: TunPacket, sessions: nat, maxSessions: nat, fwd53: bool)
    requires p.FromIcmp? && p.allowed && sessions < maxSessions
    ensures var u := HandleIp(table, p, sessions, maxSessions, fwd53);
            if forall s | s in table :: !Pings(s, p.key) then
              u == (if p.socketOk then [IcmpSession(p.key, p.failed)] else []) + table
            else
              exists i: nat :: FirstPing(table, p.key, i)
                               && u == if p.failed then table[i := IcmpSession(table[i].key, true)] else table
  {
    EchoFound(table, p.key);
    var i := FindIcmp(table, p.key);
    if i < |table| { assert FirstPing(table, p.key, i); assert table[i] in table; }
  }

  ghost predicate FirstPing(table: Table, key: Key, i: nat) {
    i < |table| && Pings(table[i], key) && forall j | 0 <= j < i :: !Pings(table[j], key)
  }

  lemma {:induction false} EchoFound(table: Table, key: Key)
    ensures var i := FindIcmp(table, key);
            && (forall j | 0 <= j < i :: !Pings(table[j], key)) && (i < |table| ==> Pings(table[i], key))
  {
    if table != [] {
      EchoFound(table[1..], key);
      assert forall j | 1 <= j < |table| :: table[j] == table[1..][j - 1];
    }
  }

  /** At the limit nothing new is made, except UDP to port 53 that is not forwarded; without a socket neither. */
  lemma NothingNew(table: Table, p: TunPacket, sessions: nat, maxSessions: nat, fwd53: bool)
    requires Unknown(table, p) && !p.FromIcmp?
    requires || (sessions >= maxSessions && (p.FromTcp? || fwd53 || p.key.dest != 53))
             || (!p.socketOk && p.allowed)
    ensures HandleIp(table, p, sessions, maxSessions, fwd53) == table
  {
    hide TcpModel.NewSession;
    NotFound(table, p.FromTcp?, p.key);
  }

  /** A packet of a session reaches that session and no other. */
  lemma ReachesItsOwn(table: Table, p: TunPacket, sessions: nat, maxSessions: nat, fwd53: bool, i: nat)
    requires Valid(table) && i < |table| && !p.FromIcmp?
    requires if p.FromTcp? then IsTcp(table[i], p.key) else IsUdp(table[i], p.key)
    requires p.FromTcp? ==> (sessions < maxSessions || !p.pkt.syn) && (!p.pkt.syn || p.exempt || p.allowed || p.sni)
    ensures HandleIp(table, p, sessions, maxSessions, fwd53)
            == table[i := if p.FromTcp? then TcpSession(p.key, TcpModel.HandleTcp(table[i].tcp, p.pkt, p.now, p.ok))
                          else UdpSession(p.key, Udp.HandleUdp(table[i].udp, p.length, p.fate, p.now))]
  {
    hide TcpModel.HandleTcp, Udp.HandleUdp;
    FoundIs(table, p.FromTcp?, p.key, i);
  }

  lemma FoundIs(table: Table, tcp: bool, key: Key, i: nat)
    requires Valid(table) && i < |table|
    requires if tcp then IsTcp(table[i], key) else IsUdp(table[i], key)
    ensures Find(table, tcp, key) == i
  {
    hide Alive;
  }

  /** Monitoring looks at every TCP session and leaves the others alone. */
  lemma {:induction false} MonitoredAt(table: Table, ms: seq<TcpModel.MonitorInput>, i: nat)
    requires |ms| == |table| && i < |table|
    ensures Monitored(table, ms)[i].key == table[i].key
    ensures Monitored(table, ms)[i] == if !table[i].TcpSession? then table[i] else
              TcpSession(table[i].key, if table[i].tcp.s.open then TcpModel.MonitorTcpSession(table[i].tcp, ms[i]).0
                                       else table[i].tcp)
  {
    hide TcpModel.MonitorTcpSession;
    if i > 0 { MonitoredAt(table[1..], ms[1..], i - 1); }
  }

  /** The deletion loop keeps exactly the sessions that their check does not delete. */
  lemma {:induction false} AgedKeeps(table: Table, ages: seq<Age>, s: Session)
    requires |ages| == |table| && ValidAges(ages)
    ensures s in Aged(table, ages) <==>
              exists i :: 0 <= i < |table| && !Check(table[i], ages[i]).1 && s == Check(table[i], ages[i]).0
    ensures |Aged(table, ages)| <= |table|
  {
    hide Check;
    if table != [] {
      AgedKeeps(table[1..], ages[1..], s);
      assert forall i | 1 <= i < |table| :: table[i] == table[1..][i - 1] && ages[i] == ages[1..][i - 1];
      if s in Aged(table[1..], ages[1..]) {
        var i :| 0 <= i < |table[1..]| && !Check(table[1..][i], ages[1..][i]).1
                 && s == Check(table[1..][i], ages[1..][i]).0;
        assert table[i + 1] == table[1..][i] && ages[i + 1] == ages[1..][i];
      }
    }
  }

  /** `check_allowed`: what is not allowed any more ends, what is blocked goes, the rest stays as it is. */
  lemma DisallowExactly(s: Session, allowed: bool)
    ensures var (t, del) := Disallow(s, allowed);
            && (del <==> s.UdpSession? && s.udp.s.state == Udp.Blocked)
            && (allowed ==> t == s)
            && (!allowed ==> !IsActive(t) && t.key == s.key)
            && (!allowed && s.TcpSession? && IsActive(s) ==> TcpConversation.ResetNow(s.tcp, t.tcp))
            && (!IsActive(s) ==> t == s)
  {
    hide TcpModel.WriteRst, TcpConversation.Wire;
    if s.TcpSession? { TcpConversation.RstSent(s.tcp); }
  }

  /** An event changes the session it belongs to, and no other. */
  lemma EventAt(table: Table, ev: SocketEvent, i: nat)
    requires i < |table|
    ensures OnSockets(table, [ev])[i] == if i == ev.at then OnSocket(table[i], ev) else table[i]
  {
    hide OnSocket;
    assert [ev][1..] == [];
  }

  /** A TCP event drives a TCP session with a socket, a UDP event a UDP session with one, and a failing ICMP socket
      stops its session. */
  lemma EventTaken(s: Session, ev: SocketEvent)
    ensures s.TcpSession? && ev.OnTcp? && s.tcp.s.open ==>
              OnSocket(s, ev) == TcpSession(s.key, TcpModel.CheckTcpSocket(s.tcp, ev.tcpEvent))
    ensures s.UdpSession? && ev.OnUdp? && s.udp.s.open ==>
              OnSocket(s, ev) == UdpSession(s.key, Udp.CheckUdpSocket(s.udp, ev.udpEvent))
    ensures s.IcmpSession? && ev.OnIcmp? ==> OnSocket(s, ev) == IcmpSession(s.key, s.stop || ev.failed)
  {
    hide TcpModel.CheckTcpSocket, Udp.CheckUdpSocket;
  }

  /** The sessions counted are those that are active. */
  lemma {:induction false} CountIsNumber(table: Table)
    ensures Sessions(table) == |ActiveAt(table)|
  {
    if table != [] {
      CountIsNumber(table[1..]);
      RestActive(table);
      ShiftedSize(ActiveAt(table[1..]), ActiveAt(table) - {0});
    }
  }

  ghost function ActiveAt(table: Table): set<nat> {
    set i: nat | i < |table| && IsActive(table[i])
  }

  lemma RestActive(table: Table)
    requires table != []
    ensures forall i: nat :: i in ActiveAt(table) - {0} <==> i > 0 && i - 1 in ActiveAt(table[1..])
    ensures 0 in ActiveAt(table) <==> IsActive(table[0])
  {
    hide IsActive;
  }

  lemma ShiftedSize(a: set<nat>, b: set<nat>)
    requires forall i: nat :: i in b <==> i > 0 && i - 1 in a
    ensures |a| == |b|
    decreases |a|
  {
    if a != {} {
      var x :| x in a;
      assert x + 1 in b;
      ShiftedSize(a - {x}, b - {x + 1});
    } else {
      assert b == {};
    }
  }
}
