/** session.c and ip.c: the table of all sessions, as a list of values.  `SessionList` keeps the same
    table as a linked list. */
module SessionTable {
  import opened Serial
  import TcpModel
  import TcpLife
  import Udp

  const TUN_YIELD := 10

  /** Version, addresses and ports of a connection. */
  datatype Key = Key(six: bool, saddr: nat, daddr: nat, source: u16, dest: u16)

  /** `struct ng_session`. */
  datatype Session =
    | IcmpSession(key: Key, stop: bool)
    | UdpSession(key: Key, udp: Udp.Conn)
    | TcpSession(key: Key, tcp: TcpModel.Conn)

  type Table = seq<Session>

  // ---------------------------------------------------------------- searching

  predicate IsUdp(s: Session, key: Key) {
    s.UdpSession? && s.key == key
  }

  predicate IsTcp(s: Session, key: Key) {
    s.TcpSession? && s.key == key
  }

  /** The search loops of `has_udp_session`, `handle_udp` and `handle_tcp`: the first match or `|table|`. */
  function Find(table: Table, tcp: bool, key: Key): (i: nat)
    ensures i <= |table|
    ensures i < |table| ==> if tcp then IsTcp(table[i], key) else IsUdp(table[i], key)
    ensures forall j | 0 <= j < i :: if tcp then !IsTcp(table[j], key) else !IsUdp(table[j], key)
  {
    if table == [] || (if tcp then IsTcp(table[0], key) else IsUdp(table[0], key)) then 0
    else 1 + Find(table[1..], tcp, key)
  }

  predicate HasUdpSession(table: Table, key: Key, fwd53: bool) {
    (key.dest == 53 && !fwd53) || Find(table, false, key) < |table|
  }

  // ---------------------------------------------------------------- packets from the tun device

  /** A parsed packet and what the outside world answers while it is handled: whether the rules allow it
      (`allowed`) and whether a socket could be opened (`socketOk`).  `exempt` is uid 0 asking port 53, and
      `sni` says that the packet names a server. */
  datatype TunPacket =
    | FromIcmp(key: Key, allowed: bool, socketOk: bool, failed: bool)
    | FromUdp(key: Key, allowed: bool, socketOk: bool, length: nat, fate: Udp.Fate, now: int, sent: nat, received: nat)
    | FromTcp(key: Key, allowed: bool, socketOk: bool, exempt: bool, sni: bool,
              pkt: TcpModel.InPacket, isn: u32, mss: u16, scale: nat, free: u32, now: int, ok: bool)

  function HandleUdp(table: Table, p: TunPacket): Table
    requires p.FromUdp?
  {
    var i := Find(table, false, p.key);
    if i < |table| then
      table[i := UdpSession(p.key, Udp.HandleUdp(table[i].udp, p.length, p.fate, p.now))]
    else if !p.socketOk then table
    else [UdpSession(p.key, Udp.HandleUdp(Udp.NewSession(p.key.dest == 53, p.now), p.length, p.fate, p.now))] + table
  }

  function BlockUdp(table: Table, p: TunPacket): Table
    requires p.FromUdp?
  {
    [UdpSession(p.key, Udp.NewBlocked(p.key.dest == 53, p.now, p.sent, p.received))] + table
  }

  function HandleTcp(table: Table, p: TunPacket, allowed: bool): Table
    requires p.FromTcp?
  {
    var i := Find(table, true, p.key);
    if i < |table| then table[i := TcpSession(p.key, TcpModel.HandleTcp(table[i].tcp, p.pkt, p.now, p.ok))]
    else if p.pkt.urg || !p.pkt.syn || !p.socketOk then table
    else
      var dns := p.key.dest == 53;
      [TcpSession(p.key, TcpModel.NewSession(p.pkt, dns, p.isn, p.mss, p.scale, p.free, p.now, allowed))] + table
  }

  predicate SameHosts(a: Key, b: Key) {
    a.six == b.six && a.saddr == b.saddr && a.daddr == b.daddr
  }

  /** The search takes the first session that is not stopped and has the addresses. */
  function FindIcmp(table: Table, key: Key): (i: nat)
    ensures i <= |table| && (i < |table| ==> table[i].IcmpSession?)
  {
    if table == [] || (table[0].IcmpSession? && !table[0].stop && SameHosts(table[0].key, key)) then 0
    else 1 + FindIcmp(table[1..], key)
  }

  function HandleIcmp(table: Table, p: TunPacket): Table
    requires p.FromIcmp?
  {
    var i := FindIcmp(table, p.key);
    if i < |table| then (if p.failed then table[i := table[i].(stop := true)] else table)
    else if !p.socketOk then table
    else [IcmpSession(p.key, p.failed)] + table
  }

  /** `handle_ip` from the session limit on; `sessions` was counted at the head of the event loop. */
  function HandleIp(table: Table, p: TunPacket, sessions: nat, maxSessions: nat, fwd53: bool): Table {
    match p
    case FromIcmp(_, _, _, _) => if sessions >= maxSessions || !p.allowed then table else HandleIcmp(table, p)
    case FromUdp(_, _, _, _, _, _, _, _) =>
      var known := HasUdpSession(table, p.key, fwd53);
      if sessions >= maxSessions && !known then table
      else if known || p.allowed then HandleUdp(table, p)
      else BlockUdp(table, p)
    case FromTcp(_, _, _, _, _, _, _, _, _, _, _, _) =>
      if sessions >= maxSessions && p.pkt.syn then table
      else
        var allowed := ((!p.pkt.syn || p.exempt) && !p.sni) || p.allowed;
        if allowed || p.sni then HandleTcp(table, p, allowed) else table
  }

  function HandleAll(table: Table, ps: seq<TunPacket>, sessions: nat, maxSessions: nat, fwd53: bool): Table
    decreases |ps|
  {
    if ps == [] then table
    else HandleAll(HandleIp(table, ps[0], sessions, maxSessions, fwd53), ps[1..], sessions, maxSessions, fwd53)
  }

  // ---------------------------------------------------------------- sockets and ageing

  datatype SocketEvent =
    | OnIcmp(at: nat, failed: bool)
    | OnUdp(at: nat, udpEvent: Udp.SocketEvent)
    | OnTcp(at: nat, tcpEvent: TcpModel.SocketEvent)

  function OnSocket(s: Session, ev: SocketEvent): Session {
    match (s, ev)
    case (IcmpSession(key, stop), OnIcmp(_, failed)) => IcmpSession(key, stop || failed)
    case (UdpSession(key, udp), OnUdp(_, e)) => UdpSession(key, Udp.Apply(udp, Udp.OnSocket(e)))
    case (TcpSession(key, tcp), OnTcp(_, e)) => TcpSession(key, TcpModel.Apply(tcp, TcpModel.OnSocket(e)))
    case _ => s
  }

  function OnSockets(table: Table, evs: seq<SocketEvent>): (r: Table)
    ensures |r| == |table|
    decreases |evs|
  {
    if evs == [] then table
    else
      var i := evs[0].at;
      OnSockets(if i < |table| then table[i := OnSocket(table[i], evs[0])] else table, evs[1..])
  }

  /** The counting loop: it also monitors every TCP session with a socket. */
  function Monitored(table: Table, ms: seq<TcpModel.MonitorInput>): (r: Table)
    requires |ms| == |table|
    ensures |r| == |table|
  {
    if table == [] then []
    else
      [if table[0].TcpSession? then TcpSession(table[0].key, TcpModel.Apply(table[0].tcp, TcpModel.OnMonitor(ms[0])))
       else table[0]] + Monitored(table[1..], ms[1..])
  }

  /** `check_icmp_session`, `check_udp_session` or `check_tcp_session`; `idle` is the timeout test of the
      first. */
  datatype Age = Age(input: TcpModel.AgeInput, idle: bool)

  function Check(s: Session, a: Age): (Session, bool)
    requires a.input.maxSessions > 0
  {
    match s
    case IcmpSession(_, stop) => (s, stop || a.idle)
    case UdpSession(key, udp) => var (d, del) := Udp.CheckUdpSession(udp, a.input); (UdpSession(key, d), del)
    case TcpSession(key, tcp) => var (d, del) := TcpModel.CheckTcpSession(tcp, a.input); (TcpSession(key, d), del)
  }

  predicate ValidAges(ages: seq<Age>) {
    forall i | 0 <= i < |ages| :: ages[i].input.maxSessions > 0
  }

  /** The table after every session has been checked: those not deleted, in their order. */
  function Aged(table: Table, ages: seq<Age>): Table
    requires |ages| == |table| && ValidAges(ages)
  {
    if table == [] then []
    else
      var (s, del) := Check(table[0], ages[0]);
      if del then Aged(table[1..], ages[1..]) else [s] + Aged(table[1..], ages[1..])
  }

  /** What `check_allowed` leaves of a session that the rules may not allow any more. */
  function Disallow(s: Session, allowed: bool): (Session, bool) {
    match s
    case IcmpSession(key, stop) => (IcmpSession(key, stop || !allowed), false)
    case UdpSession(key, udp) =>
      (UdpSession(key, if allowed then udp else Udp.Terminate(udp)), udp.s.state == Udp.Blocked)
    case TcpSession(key, tcp) =>
      (TcpSession(key, if allowed then tcp else TcpModel.Terminate(tcp)), false)
  }

  /** The table `check_allowed` leaves: blocked sessions are gone. */
  function Allowed(table: Table, allowed: seq<bool>): Table
    requires |allowed| == |table|
  {
    if table == [] then []
    else
      var (s, del) := Disallow(table[0], allowed[0]);
      if del then Allowed(table[1..], allowed[1..]) else [s] + Allowed(table[1..], allowed[1..])
  }

  // ---------------------------------------------------------------- the event loop

  predicate IsActive(s: Session) {
    match s
    case IcmpSession(_, stop) => !stop
    case UdpSession(_, udp) => udp.s.state == Udp.Active
    case TcpSession(_, tcp) => tcp.s.state != TcpModel.Closing && tcp.s.state != TcpModel.Close
  }

  /** Active sessions, those to UDP port 53 only if `all` are asked for. */
  function Count(all: bool, table: Table): nat {
    if table == [] then 0 else (if Counts(all, table[0]) then 1 else 0) + Count(all, table[1..])
  }

  predicate Counts(all: bool, s: Session) {
    IsActive(s) && (all || !(s.UdpSession? && s.key.dest == 53))
  }

  /** What the counting loop finds. */
  function Sessions(table: Table): nat {
    Count(true, table)
  }

  /** One turn of the event loop: counting, perhaps checking, and a batch of events in which the tun
      device appears at most once. */
  datatype Turn = Turn(
    monitors: seq<TcpModel.MonitorInput>, check: bool, ages: seq<Age>,
    before: seq<SocketEvent>, packets: seq<TunPacket>, after: seq<SocketEvent>)

  predicate ValidTurn(table: Table, turn: Turn) {
    && |turn.monitors| == |table| && |turn.ages| == |table| && ValidAges(turn.ages)
    && |turn.packets| <= TUN_YIELD
  }

  function Batch(table: Table, turn: Turn, sessions: nat, maxSessions: nat, fwd53: bool): Table {
    OnSockets(HandleAll(OnSockets(table, turn.before), turn.packets, sessions, maxSessions, fwd53), turn.after)
  }

  function TakeTurn(table: Table, turn: Turn, maxSessions: nat, fwd53: bool): Table
    requires ValidTurn(table, turn)
  {
    var counted := Monitored(table, turn.monitors);
    Batch(if turn.check then Aged(counted, turn.ages) else counted, turn, Sessions(table), maxSessions, fwd53)
  }

  // ---------------------------------------------------------------- unique keys

  /** No two UDP sessions and no two TCP sessions have the same key. */
  ghost predicate Unique(table: Table) {
    forall i, j | 0 <= i < j < |table| :: Distinct(table[i], table[j])
  }

  ghost predicate Distinct(s: Session, t: Session) {
    !(s.UdpSession? && t.UdpSession? && s.key == t.key) && !(s.TcpSession? && t.TcpSession? && s.key == t.key)
  }

  /** Every session obeys its own life cycle. */
  ghost predicate Alive(s: Session) {
    match s
    case IcmpSession(_, _) => true
    case UdpSession(_, udp) => Udp.Inv(udp)
    case TcpSession(_, tcp) => TcpLife.LifeInv(tcp)
  }

  ghost predicate Valid(table: Table) {
    Unique(table) && forall i | 0 <= i < |table| :: Alive(table[i])
  }

  /** A session may become its successor: same kind and key, and never active again. */
  ghost predicate Follows(s: Session, t: Session) {
    && t.key == s.key && t.IcmpSession? == s.IcmpSession? && t.UdpSession? == s.UdpSession?
    && (IsActive(t) ==> IsActive(s)) && (Alive(s) ==> Alive(t))
  }

  lemma UpdateValid(all: bool, table: Table, i: nat, t: Session)
    requires Valid(table) && i < |table| && Follows(table[i], t)
    ensures Valid(table[i := t]) && Count(all, table[i := t]) <= Count(all, table)
  {
    hide Alive, IsActive;
    CountUpdate(all, table, i, t);
  }

  lemma {:induction false} CountUpdate(all: bool, table: Table, i: nat, t: Session)
    requires i < |table| && (Counts(all, t) ==> Counts(all, table[i]))
    ensures Count(all, table[i := t]) <= Count(all, table)
  {
    hide Counts;
    var u := table[i := t];
    if i == 0 {
      assert u[1..] == table[1..];
    } else {
      assert u[1..] == table[1..][i - 1 := t];
      CountUpdate(all, table[1..], i - 1, t);
    }
  }

  /** A new session in front of a table without its key. */
  lemma PushValid(all: bool, table: Table, t: Session)
    requires Valid(table) && Alive(t) && forall j | 0 <= j < |table| :: Distinct(t, table[j])
    ensures Valid([t] + table) && Count(all, [t] + table) <= Count(all, table) + 1
    ensures !Counts(all, t) ==> Count(all, [t] + table) == Count(all, table)
  {
    hide Alive, Counts, Distinct;
    var u := [t] + table;
    assert u[1..] == table;
    forall i, j | 0 <= i < j < |u| ensures Distinct(u[i], u[j]) {
      assert u[j] == table[j - 1];
      if i > 0 { assert u[i] == table[i - 1]; }
    }
  }

  /** What handling a packet may do to a table. */
  ghost predicate Grows(all: bool, table: Table, u: Table, most: nat) {
    Valid(u) && Count(all, u) <= Count(all, table) + most
  }

  lemma UdpFollows(s: Session, step: Udp.Step)
    requires s.UdpSession? && Alive(s)
    ensures Follows(s, UdpSession(s.key, Udp.Apply(s.udp, step)))
  {
    hide Udp.Apply, Udp.Inv;
    Udp.StepInv(s.udp, step);
  }

  lemma TcpFollows(s: Session, step: TcpModel.Step)
    requires s.TcpSession? && Alive(s)
    ensures Follows(s, TcpSession(s.key, TcpModel.Apply(s.tcp, step)))
  {
    hide TcpModel.Apply, TcpLife.LifeInv;
    TcpLife.StepLife(s.tcp, step);
  }

  lemma UdpPacketValid(all: bool, table: Table, p: TunPacket)
    requires p.FromUdp? && Valid(table)
    ensures Grows(all, table, HandleUdp(table, p),
                  if Find(table, false, p.key) < |table| || (p.key.dest == 53 && !all) then 0 else 1)
    ensures Find(table, false, p.key) == |table| ==> Grows(all, table, BlockUdp(table, p), 0)
  {
    hide Udp.HandleUdp, Alive;
    var i := Find(table, false, p.key);
    if i < |table| {
      var step := Udp.FromApp(p.length, p.fate, p.now);
      UdpFollows(table[i], step);
      UpdateValid(all, table, i, UdpSession(p.key, Udp.Apply(table[i].udp, step)));
    } else {
      NewUdpAlive(p);
      var first := Udp.NewSession(p.key.dest == 53, p.now);
      PushValid(all, table, UdpSession(p.key, Udp.HandleUdp(first, p.length, p.fate, p.now)));
      PushValid(all, table, UdpSession(p.key, Udp.NewBlocked(p.key.dest == 53, p.now, p.sent, p.received)));
    }
  }

  lemma NewUdpAlive(p: TunPacket)
    requires p.FromUdp?
    ensures Alive(UdpSession(p.key, Udp.HandleUdp(Udp.NewSession(p.key.dest == 53, p.now), p.length, p.fate, p.now)))
    ensures Alive(UdpSession(p.key, Udp.NewBlocked(p.key.dest == 53, p.now, p.sent, p.received)))
  {
  }

  lemma TcpPacketValid(all: bool, table: Table, p: TunPacket, allowed: bool)
    requires p.FromTcp? && Valid(table)
    ensures Grows(all, table, HandleTcp(table, p, allowed), if p.pkt.syn then 1 else 0)
  {
    hide TcpModel.HandleTcp, TcpModel.NewSession, Alive, TcpLife.LifeInv;
    var i := Find(table, true, p.key);
    if i < |table| {
      var step := TcpModel.FromApp(p.pkt, p.now, p.ok);
      TcpFollows(table[i], step);
      UpdateValid(all, table, i, TcpSession(p.key, TcpModel.Apply(table[i].tcp, step)));
    } else {
      var dns := p.key.dest == 53;
      var t := TcpSession(p.key, TcpModel.NewSession(p.pkt, dns, p.isn, p.mss, p.scale, p.free, p.now, allowed));
      TcpLife.NewSessionLife(p.pkt, p.key.dest == 53, p.isn, p.mss, p.scale, p.free, p.now, allowed);
      assert Alive(t) by { AliveTcp(t); }
      PushValid(all, table, t);
    }
  }

  lemma AliveTcp(t: Session)
    requires t.TcpSession? && TcpLife.LifeInv(t.tcp)
    ensures Alive(t)
  {
  }

  lemma IcmpPacketValid(all: bool, table: Table, p: TunPacket)
    requires p.FromIcmp? && Valid(table)
    ensures Grows(all, table, HandleIcmp(table, p), 1)
  {
    var i := FindIcmp(table, p.key);
    if i < |table| {
      UpdateValid(all, table, i, table[i].(stop := true));
    } else {
      PushValid(all, table, IcmpSession(p.key, p.failed));
    }
  }

  /** One packet keeps the table valid and adds one limited session at most, and none when the limit is
      reached. */
  lemma PacketValid(all: bool, table: Table, p: TunPacket, sessions: nat, maxSessions: nat, fwd53: bool)
    requires Valid(table) && (all ==> fwd53)
    ensures Grows(all, table, HandleIp(table, p, sessions, maxSessions, fwd53),
                  if sessions >= maxSessions then 0 else 1)
  {
    hide Valid, HandleUdp, HandleTcp, HandleIcmp, BlockUdp, Find;
    match p
    case FromIcmp(_, _, _, _) => IcmpPacketValid(all, table, p);
    case FromUdp(_, _, _, _, _, _, _, _) => UdpPacketValid(all, table, p);
    case FromTcp(_, _, _, _, _, _, _, _, _, _, _, _) =>
      TcpPacketValid(all, table, p, ((!p.pkt.syn || p.exempt) && !p.sni) || p.allowed);
  }

  lemma {:induction false} PacketsValid(all: bool, table: Table, ps: seq<TunPacket>,
                                        sessions: nat, maxSessions: nat, fwd53: bool)
    requires Valid(table) && (all ==> fwd53)
    ensures Grows(all, table, HandleAll(table, ps, sessions, maxSessions, fwd53),
                  if sessions >= maxSessions then 0 else |ps|)
    decreases |ps|
  {
    hide Valid, HandleIp;
    if ps != [] {
      PacketValid(all, table, ps[0], sessions, maxSessions, fwd53);
      PacketsValid(all, HandleIp(table, ps[0], sessions, maxSessions, fwd53), ps[1..], sessions, maxSessions, fwd53);
    }
  }

  lemma SocketFollows(s: Session, ev: SocketEvent)
    requires Alive(s)
    ensures Follows(s, OnSocket(s, ev))
  {
    hide Alive, IsActive, Udp.Apply, TcpModel.Apply;
    match (s, ev) {
      case (UdpSession(_, _), OnUdp(_, e)) => UdpFollows(s, Udp.OnSocket(e));
      case (TcpSession(_, _), OnTcp(_, e)) => TcpFollows(s, TcpModel.OnSocket(e));
      case _ => IcmpFollows(s, ev);
    }
  }

  lemma IcmpFollows(s: Session, ev: SocketEvent)
    requires s.IcmpSession? || (!(s.UdpSession? && ev.OnUdp?) && !(s.TcpSession? && ev.OnTcp?))
    ensures Follows(s, OnSocket(s, ev))
  {
    hide TcpLife.LifeInv, Udp.Inv;
  }

  lemma {:induction false} SocketsValid(all: bool, table: Table, evs: seq<SocketEvent>)
    requires Valid(table)
    ensures Grows(all, table, OnSockets(table, evs), 0)
    decreases |evs|
  {
    hide Alive, OnSocket, Follows, Unique;
    if evs != [] {
      var i := evs[0].at;
      if i < |table| {
        SocketFollows(table[i], evs[0]);
        UpdateValid(all, table, i, OnSocket(table[i], evs[0]));
        SocketsValid(all, table[i := OnSocket(table[i], evs[0])], evs[1..]);
      } else {
        SocketsValid(all, table, evs[1..]);
      }
    }
  }

  lemma MonitorFollows(s: Session, m: TcpModel.MonitorInput)
    requires Alive(s)
    ensures Follows(s, if s.TcpSession? then TcpSession(s.key, TcpModel.Apply(s.tcp, TcpModel.OnMonitor(m))) else s)
  {
    hide TcpModel.Apply, Udp.Inv, TcpLife.LifeInv;
    if s.TcpSession? { TcpFollows(s, TcpModel.OnMonitor(m)); }
  }

  lemma {:induction false} MonitoredValid(all: bool, table: Table, ms: seq<TcpModel.MonitorInput>)
    requires Valid(table) && |ms| == |table|
    ensures Grows(all, table, Monitored(table, ms), 0)
    ensures forall i | 0 <= i < |table| :: Follows(table[i], Monitored(table, ms)[i])
  {
    hide Alive, IsActive, TcpModel.Apply;
    if table != [] {
      MonitorFollows(table[0], ms[0]);
      TailValid(table);
      MonitoredValid(all, table[1..], ms[1..]);
      var u := Monitored(table, ms);
      assert u[1..] == Monitored(table[1..], ms[1..]);
      forall i | 1 <= i < |table| ensures Follows(table[i], u[i]) {
        assert table[i] == table[1..][i - 1] && u[i] == u[1..][i - 1];
      }
    }
  }

  lemma TailValid(table: Table)
    requires Valid(table) && table != []
    ensures Valid(table[1..])
  {
  }

  lemma CheckFollows(s: Session, a: Age)
    requires Alive(s) && a.input.maxSessions > 0
    ensures Follows(s, Check(s, a).0)
  {
    hide Alive, IsActive, Udp.CheckUdpSession, TcpModel.CheckTcpSession;
    match s
    case IcmpSession(_, _) =>
    case UdpSession(_, udp) => UdpFollows(s, Udp.OnAge(a.input));
    case TcpSession(_, tcp) => TcpFollows(s, TcpModel.OnAge(a.input));
  }

  lemma DisallowFollows(s: Session, allowed: bool)
    requires Alive(s)
    ensures Follows(s, Disallow(s, allowed).0)
  {
    hide TcpModel.WriteRst, TcpLife.LifeInv;
    match s
    case IcmpSession(_, _) =>
    case UdpSession(_, udp) => UdpFollows(s, Udp.Disallow);
    case TcpSession(_, tcp) => TcpFollows(s, TcpModel.Disallow);
  }

  /** Keeping some of the sessions, each changed as `Follows` allows, cannot create a key. */
  lemma DistinctFollows(t: Session, s: Session, u: Session)
    requires Distinct(t, s) && Follows(s, u)
    ensures Distinct(t, u)
  {
    hide Alive, IsActive;
  }

  lemma {:induction false} AgedDistinct(table: Table, ages: seq<Age>, t: Session)
    requires |ages| == |table| && ValidAges(ages)
    requires forall j | 0 <= j < |table| :: Alive(table[j]) && Distinct(t, table[j])
    ensures forall j | 0 <= j < |Aged(table, ages)| :: Distinct(t, Aged(table, ages)[j])
  {
    hide Alive, Distinct, Check, Follows;
    if table != [] {
      CheckFollows(table[0], ages[0]);
      DistinctFollows(t, table[0], Check(table[0], ages[0]).0);
      AgedDistinct(table[1..], ages[1..], t);
    }
  }

  /** The deletion loop keeps the table valid and cannot make a session active. */
  lemma {:induction false} AgedValid(all: bool, table: Table, ages: seq<Age>)
    requires Valid(table) && |ages| == |table| && ValidAges(ages)
    ensures Grows(all, table, Aged(table, ages), 0)
  {
    hide Alive, Distinct, IsActive, Check;
    if table != [] {
      var (s, del) := Check(table[0], ages[0]);
      TailValid(table);
      AgedValid(all, table[1..], ages[1..]);
      CheckFollows(table[0], ages[0]);
      if !del {
        forall j | 1 <= j < |table| ensures Distinct(s, table[j]) {
          FollowsDistinct(table[0], s, table[j]);
        }
        AgedDistinct(table[1..], ages[1..], s);
        PushFollowed(all, table[0], s, Aged(table[1..], ages[1..]));
      }
    }
  }

  lemma FollowsDistinct(s: Session, t: Session, u: Session)
    requires Follows(s, t) && Distinct(s, u)
    ensures Distinct(t, u)
  {
    hide Alive, IsActive;
  }

  lemma PushFollowed(all: bool, s: Session, t: Session, rest: Table)
    requires Valid(rest) && Follows(s, t) && Alive(s) && forall j | 0 <= j < |rest| :: Distinct(t, rest[j])
    ensures Valid([t] + rest) && Count(all, [t] + rest) <= (if Counts(all, s) then 1 else 0) + Count(all, rest)
  {
    hide Alive, Distinct;
    PushValid(all, rest, t);
    assert Counts(all, t) ==> Counts(all, s);
  }

  lemma {:induction false} AllowedDistinct(table: Table, allowed: seq<bool>, t: Session)
    requires |allowed| == |table|
    requires forall j | 0 <= j < |table| :: Alive(table[j]) && Distinct(t, table[j])
    ensures forall j | 0 <= j < |Allowed(table, allowed)| :: Distinct(t, Allowed(table, allowed)[j])
  {
    hide Alive, Distinct, Disallow, Follows;
    if table != [] {
      DisallowFollows(table[0], allowed[0]);
      DistinctFollows(t, table[0], Disallow(table[0], allowed[0]).0);
      AllowedDistinct(table[1..], allowed[1..], t);
    }
  }

  /** So does the loop of `check_allowed`, and no blocked session is left. */
  lemma {:induction false} AllowedValid(all: bool, table: Table, allowed: seq<bool>)
    requires Valid(table) && |allowed| == |table|
    ensures Grows(all, table, Allowed(table, allowed), 0)
    ensures forall s | s in Allowed(table, allowed) :: s.UdpSession? ==> s.udp.s.state != Udp.Blocked
  {
    hide Alive, Distinct, IsActive, TcpModel.WriteRst;
    if table != [] {
      var (s, del) := Disallow(table[0], allowed[0]);
      TailValid(table);
      AllowedValid(all, table[1..], allowed[1..]);
      DisallowFollows(table[0], allowed[0]);
      if !del {
        forall j | 1 <= j < |table| ensures Distinct(s, table[j]) {
          FollowsDistinct(table[0], s, table[j]);
        }
        AllowedDistinct(table[1..], allowed[1..], s);
        PushFollowed(all, table[0], s, Allowed(table[1..], allowed[1..]));
      }
    }
  }

  // ---------------------------------------------------------------- the session limit

  /** The bound holds for all active sessions if port 53 is forwarded, and always for the others. */
  ghost predicate Bounded(table: Table, maxSessions: nat, fwd53: bool) {
    Valid(table) && Count(fwd53, table) <= maxSessions + TUN_YIELD - 1
  }

  lemma {:induction false} CountIsSessions(all: bool, table: Table)
    ensures Count(all, table) <= Sessions(table)
  {
    hide IsActive;
    if table != [] { CountIsSessions(all, table[1..]); }
  }

  lemma TurnKeepsBound(table: Table, turn: Turn, maxSessions: nat, fwd53: bool)
    requires Bounded(table, maxSessions, fwd53) && ValidTurn(table, turn)
    ensures Bounded(TakeTurn(table, turn, maxSessions, fwd53), maxSessions, fwd53)
  {
    hide Valid, OnSockets, HandleAll, Aged, Monitored, Count, Sessions;
    CountIsSessions(fwd53, table);
    MonitoredValid(fwd53, table, turn.monitors);
    var counted := Monitored(table, turn.monitors);
    if turn.check { AgedValid(fwd53, counted, turn.ages); }
    var checked := if turn.check then Aged(counted, turn.ages) else counted;
    SocketsValid(fwd53, checked, turn.before);
    var t := OnSockets(checked, turn.before);
    PacketsValid(fwd53, t, turn.packets, Sessions(table), maxSessions, fwd53);
    SocketsValid(fwd53, HandleAll(t, turn.packets, Sessions(table), maxSessions, fwd53), turn.after);
  }

  ghost predicate ValidRun(table: Table, turns: seq<Turn>, maxSessions: nat, fwd53: bool)
    decreases |turns|
  {
    turns == []
    || (ValidTurn(table, turns[0])
        && ValidRun(TakeTurn(table, turns[0], maxSessions, fwd53), turns[1..], maxSessions, fwd53))
  }

  ghost function RunTurns(table: Table, turns: seq<Turn>, maxSessions: nat, fwd53: bool): Table
    requires ValidRun(table, turns, maxSessions, fwd53)
    decreases |turns|
  {
    if turns == [] then table
    else RunTurns(TakeTurn(table, turns[0], maxSessions, fwd53), turns[1..], maxSessions, fwd53)
  }

  lemma {:induction false} RunKeepsBound(table: Table, turns: seq<Turn>, maxSessions: nat, fwd53: bool)
    requires Bounded(table, maxSessions, fwd53) && ValidRun(table, turns, maxSessions, fwd53)
    ensures Bounded(RunTurns(table, turns, maxSessions, fwd53), maxSessions, fwd53)
    decreases |turns|
  {
    hide Bounded, TakeTurn, ValidTurn;
    if turns != [] {
      TurnKeepsBound(table, turns[0], maxSessions, fwd53);
      RunKeepsBound(TakeTurn(table, turns[0], maxSessions, fwd53), turns[1..], maxSessions, fwd53);
    }
  }

  /** After every number of turns of the event loop from the empty table: keys are unique, every session
      obeys its life cycle, and at most `maxSessions + 9` sessions are active, those to UDP port
      53 included if it is forwarded and not counted if it is not. */
  lemma SessionLimit(turns: seq<Turn>, maxSessions: nat, fwd53: bool)
    requires ValidRun([], turns, maxSessions, fwd53)
    ensures var table := RunTurns([], turns, maxSessions, fwd53);
            && Valid(table)
            && Count(false, table) <= maxSessions + 9
            && (fwd53 ==> Sessions(table) <= maxSessions + 9)
  {
    hide RunTurns, ValidRun, Valid, Counts;
    EmptyBounded(maxSessions, fwd53);
    RunKeepsBound([], turns, maxSessions, fwd53);
    FewerWithout53(RunTurns([], turns, maxSessions, fwd53));
  }

  lemma EmptyBounded(maxSessions: nat, fwd53: bool)
    ensures Bounded([], maxSessions, fwd53)
  {
  }

  lemma FewerWithout53(table: Table)
    ensures Count(false, table) <= Count(true, table)
  {
    CountIsSessions(false, table);
  }

  /** A new DNS query without port 53 forwarding, which opens a socket and is not done with at once. */
  predicate Bypasses(table: Table, p: TunPacket, fwd53: bool) {
    && p.FromUdp? && p.key.dest == 53 && !fwd53 && Find(table, false, p.key) == |table|
    && p.socketOk && p.fate != Udp.Answered && p.fate != Udp.SendFailed
  }

  /** Once the limit is reached, a packet makes a session active exactly in that case, and then one. */
  lemma Port53Bypasses(table: Table, p: TunPacket, sessions: nat, maxSessions: nat, fwd53: bool)
    requires Valid(table) && sessions >= maxSessions
    ensures var u := HandleIp(table, p, sessions, maxSessions, fwd53);
            if Bypasses(table, p, fwd53) then Sessions(u) == Sessions(table) + 1 else Sessions(u) <= Sessions(table)
  {
    hide Find, Valid, HandleTcp, Udp.HandleUdp;
    match p
    case FromIcmp(_, _, _, _) =>
    case FromTcp(_, _, _, _, _, _, _, _, _, _, _, _) =>
      TcpPacketValid(true, table, p, ((!p.pkt.syn || p.exempt) && !p.sni) || p.allowed);
    case FromUdp(_, _, _, _, _, _, _, _) =>
      if Find(table, false, p.key) < |table| {
        UdpPacketValid(true, table, p);
      } else if p.key.dest == 53 && !fwd53 && p.socketOk {
        var t := UdpSession(p.key, Udp.HandleUdp(Udp.NewSession(true, p.now), p.length, p.fate, p.now));
        assert ([t] + table)[1..] == table;
        FreshActive(p);
      }
  }

  lemma FreshActive(p: TunPacket)
    requires p.FromUdp?
    ensures var c := Udp.HandleUdp(Udp.NewSession(true, p.now), p.length, p.fate, p.now);
            c.s.state == Udp.Active <==> p.fate != Udp.Answered && p.fate != Udp.SendFailed
  {
  }
}
