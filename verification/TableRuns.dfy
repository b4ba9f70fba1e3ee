/** What is proved of runs of one session holds of the table: beside the table goes, for every session in it, how
    it was registered and the steps it has taken since, and the session is what that run comes to. */
module TableRuns {
  import opened Serial
  import TcpModel
  import TcpLife
  import TcpNumbers
  import TcpUsage
  import TcpInvariants
  import TcpTheorems
  import Udp
  import opened SessionTable

  /** What a TCP session was registered with. */
  datatype Origin = Origin(pkt: TcpModel.InPacket, dns: bool, isn: u32, mss: u16, scale: nat, free: u32, now: int,
                           allowed: bool)

  function Registered(o: Origin): TcpModel.Conn {
    TcpModel.NewSession(o.pkt, o.dns, o.isn, o.mss, o.scale, o.free, o.now, o.allowed)
  }

  /** The registration of a session and its steps since. */
  datatype Trace =
    | IcmpTrace
    | UdpTrace(begin: Udp.Conn, sent: seq<Udp.Step>)
    | TcpTrace(origin: Origin, steps: seq<TcpModel.Step>)

  function TcpThen(t: Trace, step: TcpModel.Step): Trace {
    if t.TcpTrace? then t.(steps := t.steps + [step]) else t
  }

  function UdpThen(t: Trace, step: Udp.Step): Trace {
    if t.UdpTrace? then t.(sent := t.sent + [step]) else t
  }

  ghost predicate UdpBegin(key: Key, c: Udp.Conn) {
    || c == Udp.NewSession(key.dest == 53, c.s.time)
    || c == Udp.NewBlocked(key.dest == 53, c.s.time, c.s.sent, c.s.received)
  }

  /** The session is what its trace comes to. */
  ghost predicate Tells(t: Trace, s: Session) {
    match s
    case IcmpSession(_, _) => t.IcmpTrace?
    case UdpSession(key, udp) => t.UdpTrace? && UdpBegin(key, t.begin) && udp == Udp.Run(t.begin, t.sent)
    case TcpSession(key, tcp) =>
      t.TcpTrace? && t.origin.dns == (key.dest == 53) && tcp == TcpModel.Run(Registered(t.origin), t.steps)
  }

  type Traces = seq<Trace>

  ghost predicate Told(ts: Traces, table: Table) {
    |ts| == |table| && forall i | 0 <= i < |ts| :: Tells(ts[i], table[i])
  }

  // ---------------------------------------------------------------- traces of what the event loop does

  function UdpTraces(ts: Traces, table: Table, p: TunPacket): Traces
    requires |ts| == |table| && p.FromUdp?
  {
    var i, step := Find(table, false, p.key), Udp.FromApp(p.length, p.fate, p.now);
    if i < |table| then ts[i := UdpThen(ts[i], step)]
    else if !p.socketOk then ts
    else [UdpTrace(Udp.NewSession(p.key.dest == 53, p.now), [step])] + ts
  }

  function BlockTraces(ts: Traces, p: TunPacket): Traces
    requires p.FromUdp?
  {
    [UdpTrace(Udp.NewBlocked(p.key.dest == 53, p.now, p.sent, p.received), [])] + ts
  }

  function TcpTraces(ts: Traces, table: Table, p: TunPacket, allowed: bool): Traces
    requires |ts| == |table| && p.FromTcp?
  {
    var i := Find(table, true, p.key);
    if i < |table| then ts[i := TcpThen(ts[i], TcpModel.FromApp(p.pkt, p.now, p.ok))]
    else if p.pkt.urg || !p.pkt.syn || !p.socketOk then ts
    else [TcpTrace(Origin(p.pkt, p.key.dest == 53, p.isn, p.mss, p.scale, p.free, p.now, allowed), [])] + ts
  }

  function IcmpTraces(ts: Traces, table: Table, p: TunPacket): Traces
    requires p.FromIcmp?
  {
    if FindIcmp(table, p.key) < |table| || !p.socketOk then ts else [IcmpTrace] + ts
  }

  function IpTraces(ts: Traces, table: Table, p: TunPacket, sessions: nat, maxSessions: nat, fwd53: bool): Traces
    requires |ts| == |table|
  {
    match p
    case FromIcmp(_, _, _, _) => if sessions >= maxSessions || !p.allowed then ts else IcmpTraces(ts, table, p)
    case FromUdp(_, _, _, _, _, _, _, _) =>
      var known := HasUdpSession(table, p.key, fwd53);
      if sessions >= maxSessions && !known then ts
      else if known || p.allowed then UdpTraces(ts, table, p)
      else BlockTraces(ts, p)
    case FromTcp(_, _, _, _, _, _, _, _, _, _, _, _) =>
      if sessions >= maxSessions && p.pkt.syn then ts
      else
        var allowed := ((!p.pkt.syn || p.exempt) && !p.sni) || p.allowed;
        if allowed || p.sni then TcpTraces(ts, table, p, allowed) else ts
  }

  function AllTraces(ts: Traces, table: Table, ps: seq<TunPacket>, sessions: nat, maxSessions: nat, fwd53: bool)
    : (r: Traces)
    requires |ts| == |table|
    ensures |r| == |HandleAll(table, ps, sessions, maxSessions, fwd53)|
    decreases |ps|
  {
    if ps == [] then ts
    else
      AllTraces(IpTraces(ts, table, ps[0], sessions, maxSessions, fwd53),
                HandleIp(table, ps[0], sessions, maxSessions, fwd53), ps[1..], sessions, maxSessions, fwd53)
  }

  function SocketTrace(t: Trace, ev: SocketEvent): Trace {
    match ev
    case OnIcmp(_, _) => t
    case OnUdp(_, e) => UdpThen(t, Udp.OnSocket(e))
    case OnTcp(_, e) => TcpThen(t, TcpModel.OnSocket(e))
  }

  function SocketsTraces(ts: Traces, evs: seq<SocketEvent>): (r: Traces)
    ensures |r| == |ts|
    decreases |evs|
  {
    if evs == [] then ts
    else
      var i := evs[0].at;
      SocketsTraces(if i < |ts| then ts[i := SocketTrace(ts[i], evs[0])] else ts, evs[1..])
  }

  function MonitoredTraces(ts: Traces, ms: seq<TcpModel.MonitorInput>): Traces
    requires |ms| == |ts|
  {
    seq(|ts|, i requires 0 <= i < |ts| => TcpThen(ts[i], TcpModel.OnMonitor(ms[i])))
  }

  function CheckTrace(t: Trace, a: Age): Trace {
    UdpThen(TcpThen(t, TcpModel.OnAge(a.input)), Udp.OnAge(a.input))
  }

  function AgedTraces(ts: Traces, table: Table, ages: seq<Age>): (r: Traces)
    requires |ts| == |table| == |ages| && ValidAges(ages)
    ensures |r| == |Aged(table, ages)|
  {
    if table == [] then []
    else if Check(table[0], ages[0]).1 then AgedTraces(ts[1..], table[1..], ages[1..])
    else [CheckTrace(ts[0], ages[0])] + AgedTraces(ts[1..], table[1..], ages[1..])
  }

  function DisallowTrace(t: Trace, allowed: bool): Trace {
    if allowed then t else UdpThen(TcpThen(t, TcpModel.Disallow), Udp.Disallow)
  }

  function AllowedTraces(ts: Traces, table: Table, allowed: seq<bool>): (r: Traces)
    requires |ts| == |table| == |allowed|
    ensures |r| == |Allowed(table, allowed)|
  {
    if table == [] then []
    else if Disallow(table[0], allowed[0]).1 then AllowedTraces(ts[1..], table[1..], allowed[1..])
    else [DisallowTrace(ts[0], allowed[0])] + AllowedTraces(ts[1..], table[1..], allowed[1..])
  }

  // ---------------------------------------------------------------- one step more

  lemma {:induction false} TcpRunThen(c: TcpModel.Conn, steps: seq<TcpModel.Step>, step: TcpModel.Step)
    ensures TcpModel.Run(c, steps + [step]) == TcpModel.Apply(TcpModel.Run(c, steps), step)
    decreases |steps|
  {
    hide TcpModel.Apply;
    if steps == [] {
      assert ([] + [step])[1..] == [];
    } else {
      assert (steps + [step])[1..] == steps[1..] + [step];
      TcpRunThen(TcpModel.Apply(c, steps[0]), steps[1..], step);
    }
  }

  lemma {:induction false} UdpRunThen(c: Udp.Conn, steps: seq<Udp.Step>, step: Udp.Step)
    ensures Udp.Run(c, steps + [step]) == Udp.Apply(Udp.Run(c, steps), step)
    decreases |steps|
  {
    hide Udp.Apply;
    if steps == [] {
      assert ([] + [step])[1..] == [];
    } else {
      assert (steps + [step])[1..] == steps[1..] + [step];
      UdpRunThen(Udp.Apply(c, steps[0]), steps[1..], step);
    }
  }

  lemma TcpTells(t: Trace, s: Session, step: TcpModel.Step)
    requires Tells(t, s) && s.TcpSession?
    ensures Tells(TcpThen(t, step), TcpSession(s.key, TcpModel.Apply(s.tcp, step)))
  {
    hide TcpModel.Apply, TcpModel.Run, Registered;
    TcpRunThen(Registered(t.origin), t.steps, step);
  }

  lemma UdpTells(t: Trace, s: Session, step: Udp.Step)
    requires Tells(t, s) && s.UdpSession?
    ensures Tells(UdpThen(t, step), UdpSession(s.key, Udp.Apply(s.udp, step)))
  {
    hide Udp.Apply, Udp.Run, UdpBegin;
    UdpRunThen(t.begin, t.sent, step);
  }

  lemma TcpBegins(key: Key, o: Origin)
    requires o.dns == (key.dest == 53)
    ensures Tells(TcpTrace(o, []), TcpSession(key, Registered(o)))
  {
    hide Registered;
  }

  lemma UdpBegins(key: Key, c: Udp.Conn, step: Udp.Step)
    requires UdpBegin(key, c)
    ensures Tells(UdpTrace(c, []), UdpSession(key, c))
    ensures Tells(UdpTrace(c, [step]), UdpSession(key, Udp.Apply(c, step)))
  {
    hide UdpBegin, Udp.Apply;
    assert [step][1..] == [] && Udp.Run(Udp.Apply(c, step), []) == Udp.Apply(c, step);
  }

  // ---------------------------------------------------------------- packets

  lemma UpdateTold(ts: Traces, table: Table, i: nat, t: Trace, s: Session)
    requires Told(ts, table) && i < |ts| && Tells(t, s)
    ensures Told(ts[i := t], table[i := s])
  {
    hide Tells;
  }

  lemma PushTold(ts: Traces, table: Table, t: Trace, s: Session)
    requires Told(ts, table) && Tells(t, s)
    ensures Told([t] + ts, [s] + table)
  {
    hide Tells;
  }

  lemma UdpPacketTold(ts: Traces, table: Table, p: TunPacket)
    requires p.FromUdp? && Told(ts, table)
    ensures Told(UdpTraces(ts, table, p), HandleUdp(table, p)) && Told(BlockTraces(ts, p), BlockUdp(table, p))
  {
    hide Told, Tells, Udp.HandleUdp, Udp.Run;
    var i, step := Find(table, false, p.key), Udp.FromApp(p.length, p.fate, p.now);
    var begin := Udp.NewSession(p.key.dest == 53, p.now);
    var blocked := Udp.NewBlocked(p.key.dest == 53, p.now, p.sent, p.received);
    UdpBegins(p.key, blocked, step);
    PushTold(ts, table, UdpTrace(blocked, []), UdpSession(p.key, blocked));
    if i < |table| {
      ToldAt(ts, table, i);
      UdpTells(ts[i], table[i], step);
      UpdateTold(ts, table, i, UdpThen(ts[i], step), UdpSession(p.key, Udp.Apply(table[i].udp, step)));
    } else if p.socketOk {
      UdpBegins(p.key, begin, step);
      PushTold(ts, table, UdpTrace(begin, [step]), UdpSession(p.key, Udp.Apply(begin, step)));
    }
  }

  lemma ToldAt(ts: Traces, table: Table, i: nat)
    requires Told(ts, table) && i < |table|
    ensures |ts| == |table| && Tells(ts[i], table[i])
  {
    hide Tells;
  }

  lemma TcpPacketTold(ts: Traces, table: Table, p: TunPacket, allowed: bool)
    requires p.FromTcp? && Told(ts, table)
    ensures |ts| == |table| && Told(TcpTraces(ts, table, p, allowed), HandleTcp(table, p, allowed))
  {
    hide Told, Tells, TcpModel.HandleTcp, TcpModel.NewSession, TcpModel.Run;
    assert |ts| == |table| by { SameLength(ts, table); }
    var i, step := Find(table, true, p.key), TcpModel.FromApp(p.pkt, p.now, p.ok);
    var o := Origin(p.pkt, p.key.dest == 53, p.isn, p.mss, p.scale, p.free, p.now, allowed);
    if i < |table| {
      ToldAt(ts, table, i);
      TcpTells(ts[i], table[i], step);
      UpdateTold(ts, table, i, TcpThen(ts[i], step), TcpSession(p.key, TcpModel.Apply(table[i].tcp, step)));
    } else {
      TcpBegins(p.key, o);
      PushTold(ts, table, TcpTrace(o, []), TcpSession(p.key, Registered(o)));
    }
  }

  lemma SameLength(ts: Traces, table: Table)
    requires Told(ts, table)
    ensures |ts| == |table|
  {
  }

  lemma IcmpPacketTold(ts: Traces, table: Table, p: TunPacket)
    requires p.FromIcmp? && Told(ts, table)
    ensures Told(IcmpTraces(ts, table, p), HandleIcmp(table, p))
  {
    hide Udp.Run, TcpModel.Run, Registered;
  }

  lemma PacketTold(ts: Traces, table: Table, p: TunPacket, sessions: nat, maxSessions: nat, fwd53: bool)
    requires Told(ts, table)
    ensures |ts| == |table|
    ensures Told(IpTraces(ts, table, p, sessions, maxSessions, fwd53), HandleIp(table, p, sessions, maxSessions, fwd53))
  {
    hide Told, Find, HandleUdp, BlockUdp, HandleTcp, HandleIcmp, UdpTraces, BlockTraces, TcpTraces, IcmpTraces;
    SameLength(ts, table);
    match p
    case FromIcmp(_, _, _, _) => IcmpPacketTold(ts, table, p);
    case FromUdp(_, _, _, _, _, _, _, _) => UdpPacketTold(ts, table, p);
    case FromTcp(_, _, _, _, _, _, _, _, _, _, _, _) =>
      TcpPacketTold(ts, table, p, ((!p.pkt.syn || p.exempt) && !p.sni) || p.allowed);
  }

  lemma {:induction false} PacketsTold(ts: Traces, table: Table, ps: seq<TunPacket>,
                                       sessions: nat, maxSessions: nat, fwd53: bool)
    requires Told(ts, table)
    ensures |ts| == |table|
    ensures Told(AllTraces(ts, table, ps, sessions, maxSessions, fwd53),
                 HandleAll(table, ps, sessions, maxSessions, fwd53))
    decreases |ps|
  {
    hide Told, HandleIp, IpTraces;
    SameLength(ts, table);
    if ps != [] {
      PacketTold(ts, table, ps[0], sessions, maxSessions, fwd53);
      PacketsTold(IpTraces(ts, table, ps[0], sessions, maxSessions, fwd53),
                  HandleIp(table, ps[0], sessions, maxSessions, fwd53), ps[1..], sessions, maxSessions, fwd53);
    }
  }

  // ---------------------------------------------------------------- the other parts of a turn

  lemma SocketTells(t: Trace, s: Session, ev: SocketEvent)
    requires Tells(t, s)
    ensures Tells(SocketTrace(t, ev), OnSocket(s, ev))
  {
    hide Udp.Apply, Udp.Run, TcpModel.Apply, TcpModel.Run, Registered, UdpBegin;
    match ev
    case OnIcmp(_, _) =>
    case OnUdp(_, e) => if s.UdpSession? { UdpTells(t, s, Udp.OnSocket(e)); }
    case OnTcp(_, e) => if s.TcpSession? { TcpTells(t, s, TcpModel.OnSocket(e)); }
  }

  lemma {:induction false} SocketsTold(ts: Traces, table: Table, evs: seq<SocketEvent>)
    requires Told(ts, table)
    ensures Told(SocketsTraces(ts, evs), OnSockets(table, evs))
    decreases |evs|
  {
    hide Tells, OnSocket, SocketTrace;
    if evs != [] {
      var i := evs[0].at;
      if i < |ts| {
        SocketTells(ts[i], table[i], evs[0]);
        SocketsTold(ts[i := SocketTrace(ts[i], evs[0])], table[i := OnSocket(table[i], evs[0])], evs[1..]);
      } else {
        SocketsTold(ts, table, evs[1..]);
      }
    }
  }

  lemma MonitorTells(t: Trace, s: Session, m: TcpModel.MonitorInput)
    requires Tells(t, s)
    ensures Tells(TcpThen(t, TcpModel.OnMonitor(m)),
                  if s.TcpSession? then TcpSession(s.key, TcpModel.Apply(s.tcp, TcpModel.OnMonitor(m))) else s)
  {
    hide Udp.Run, TcpModel.Apply, TcpModel.Run, Registered, UdpBegin;
    if s.TcpSession? { TcpTells(t, s, TcpModel.OnMonitor(m)); }
  }

  lemma {:induction false} MonitoredTold(ts: Traces, table: Table, ms: seq<TcpModel.MonitorInput>)
    requires Told(ts, table) && |ms| == |table|
    ensures Told(MonitoredTraces(ts, ms), Monitored(table, ms))
  {
    hide Tells, TcpModel.Apply, TcpThen;
    if table != [] {
      MonitorTells(ts[0], table[0], ms[0]);
      MonitoredTold(ts[1..], table[1..], ms[1..]);
      var s := Monitored(table, ms)[0];
      assert MonitoredTraces(ts, ms) == [TcpThen(ts[0], TcpModel.OnMonitor(ms[0]))] + MonitoredTraces(ts[1..], ms[1..]);
      assert Monitored(table, ms) == [s] + Monitored(table[1..], ms[1..]);
      PushTold(MonitoredTraces(ts[1..], ms[1..]), Monitored(table[1..], ms[1..]),
               TcpThen(ts[0], TcpModel.OnMonitor(ms[0])), s);
    }
  }

  lemma CheckTells(t: Trace, s: Session, a: Age)
    requires Tells(t, s) && a.input.maxSessions > 0
    ensures Tells(CheckTrace(t, a), Check(s, a).0)
  {
    hide Udp.CheckUdpSession, Udp.Run, TcpModel.CheckTcpSession, TcpModel.Run, Registered, UdpBegin;
    match s
    case IcmpSession(_, _) =>
    case UdpSession(_, _) => UdpTells(t, s, Udp.OnAge(a.input));
    case TcpSession(_, _) => TcpTells(t, s, TcpModel.OnAge(a.input));
  }

  lemma {:induction false} AgedTold(ts: Traces, table: Table, ages: seq<Age>)
    requires Told(ts, table) && |ages| == |table| && ValidAges(ages)
    ensures Told(AgedTraces(ts, table, ages), Aged(table, ages))
  {
    hide Tells, Check, CheckTrace;
    if table != [] {
      AgedTold(ts[1..], table[1..], ages[1..]);
      CheckTells(ts[0], table[0], ages[0]);
      PushTold(AgedTraces(ts[1..], table[1..], ages[1..]), Aged(table[1..], ages[1..]),
               CheckTrace(ts[0], ages[0]), Check(table[0], ages[0]).0);
    }
  }

  lemma DisallowTells(t: Trace, s: Session, allowed: bool)
    requires Tells(t, s)
    ensures Tells(DisallowTrace(t, allowed), Disallow(s, allowed).0)
  {
    hide Udp.Terminate, Udp.Run, TcpModel.Terminate, TcpModel.Run, Registered, UdpBegin;
    match s
    case IcmpSession(_, _) =>
    case UdpSession(_, _) => UdpTells(t, s, Udp.Disallow);
    case TcpSession(_, _) => TcpTells(t, s, TcpModel.Disallow);
  }

  lemma {:induction false} AllowedTold(ts: Traces, table: Table, allowed: seq<bool>)
    requires Told(ts, table) && |allowed| == |table|
    ensures Told(AllowedTraces(ts, table, allowed), Allowed(table, allowed))
  {
    hide Tells, Disallow, DisallowTrace;
    if table != [] {
      AllowedTold(ts[1..], table[1..], allowed[1..]);
      DisallowTells(ts[0], table[0], allowed[0]);
      PushTold(AllowedTraces(ts[1..], table[1..], allowed[1..]), Allowed(table[1..], allowed[1..]),
               DisallowTrace(ts[0], allowed[0]), Disallow(table[0], allowed[0]).0);
    }
  }

  // ---------------------------------------------------------------- turns and threads

  function TurnTraces(ts: Traces, table: Table, turn: Turn, maxSessions: nat, fwd53: bool): (r: Traces)
    requires |ts| == |table| && ValidTurn(table, turn)
    ensures |r| == |TakeTurn(table, turn, maxSessions, fwd53)|
  {
    var counted, monitored := Monitored(table, turn.monitors), MonitoredTraces(ts, turn.monitors);
    var checked := if turn.check then Aged(counted, turn.ages) else counted;
    var aged := if turn.check then AgedTraces(monitored, counted, turn.ages) else monitored;
    var packets := AllTraces(SocketsTraces(aged, turn.before), OnSockets(checked, turn.before), turn.packets,
                             Sessions(table), maxSessions, fwd53);
    SocketsTraces(packets, turn.after)
  }

  lemma TurnTold(ts: Traces, table: Table, turn: Turn, maxSessions: nat, fwd53: bool)
    requires Told(ts, table) && ValidTurn(table, turn)
    ensures |ts| == |table|
    ensures Told(TurnTraces(ts, table, turn, maxSessions, fwd53), TakeTurn(table, turn, maxSessions, fwd53))
  {
    hide Told, OnSockets, HandleAll, Aged, Monitored, Sessions, SocketsTraces, AllTraces, AgedTraces, MonitoredTraces;
    SameLength(ts, table);
    MonitoredTold(ts, table, turn.monitors);
    var counted, monitored := Monitored(table, turn.monitors), MonitoredTraces(ts, turn.monitors);
    SameLength(monitored, counted);
    if turn.check { AgedTold(monitored, counted, turn.ages); }
    var checked := if turn.check then Aged(counted, turn.ages) else counted;
    var aged := if turn.check then AgedTraces(monitored, counted, turn.ages) else monitored;
    SocketsTold(aged, checked, turn.before);
    var u, t := SocketsTraces(aged, turn.before), OnSockets(checked, turn.before);
    PacketsTold(u, t, turn.packets, Sessions(table), maxSessions, fwd53);
    SocketsTold(AllTraces(u, t, turn.packets, Sessions(table), maxSessions, fwd53),
                HandleAll(t, turn.packets, Sessions(table), maxSessions, fwd53), turn.after);
  }

  ghost function TurnsTraces(ts: Traces, table: Table, turns: seq<Turn>, maxSessions: nat, fwd53: bool): (r: Traces)
    requires |ts| == |table| && ValidRun(table, turns, maxSessions, fwd53)
    ensures |r| == |RunTurns(table, turns, maxSessions, fwd53)|
    decreases |turns|
  {
    if turns == [] then ts
    else
      TurnsTraces(TurnTraces(ts, table, turns[0], maxSessions, fwd53), TakeTurn(table, turns[0], maxSessions, fwd53),
                  turns[1..], maxSessions, fwd53)
  }

  lemma {:induction false} TurnsTold(ts: Traces, table: Table, turns: seq<Turn>, maxSessions: nat, fwd53: bool)
    requires Told(ts, table) && ValidRun(table, turns, maxSessions, fwd53)
    ensures |ts| == |table|
    ensures Told(TurnsTraces(ts, table, turns, maxSessions, fwd53), RunTurns(table, turns, maxSessions, fwd53))
    decreases |turns|
  {
    hide Told, TakeTurn, ValidTurn, TurnTraces;
    SameLength(ts, table);
    if turns != [] {
      TurnTold(ts, table, turns[0], maxSessions, fwd53);
      TurnsTold(TurnTraces(ts, table, turns[0], maxSessions, fwd53), TakeTurn(table, turns[0], maxSessions, fwd53),
                turns[1..], maxSessions, fwd53);
    }
  }

  /** One life of the event thread: it starts with `check_allowed` and then takes turns. */
  datatype Thread = Thread(allowed: seq<bool>, turns: seq<Turn>, maxSessions: nat, fwd53: bool)

  ghost predicate ValidThread(table: Table, thread: Thread) {
    && |thread.allowed| == |table|
    && ValidRun(Allowed(table, thread.allowed), thread.turns, thread.maxSessions, thread.fwd53)
  }

  ghost function RunThread(table: Table, thread: Thread): Table
    requires ValidThread(table, thread)
  {
    RunTurns(Allowed(table, thread.allowed), thread.turns, thread.maxSessions, thread.fwd53)
  }

  ghost function ThreadTraces(ts: Traces, table: Table, thread: Thread): (r: Traces)
    requires |ts| == |table| && ValidThread(table, thread)
    ensures |r| == |RunThread(table, thread)|
  {
    TurnsTraces(AllowedTraces(ts, table, thread.allowed), Allowed(table, thread.allowed), thread.turns,
                thread.maxSessions, thread.fwd53)
  }

  ghost predicate ValidThreads(table: Table, threads: seq<Thread>)
    decreases |threads|
  {
    threads == [] || (ValidThread(table, threads[0]) && ValidThreads(RunThread(table, threads[0]), threads[1..]))
  }

  ghost function RunThreads(table: Table, threads: seq<Thread>): Table
    requires ValidThreads(table, threads)
    decreases |threads|
  {
    if threads == [] then table else RunThreads(RunThread(table, threads[0]), threads[1..])
  }

  ghost function ThreadsTraces(ts: Traces, table: Table, threads: seq<Thread>): (r: Traces)
    requires |ts| == |table| && ValidThreads(table, threads)
    ensures |r| == |RunThreads(table, threads)|
    decreases |threads|
  {
    if threads == [] then ts
    else ThreadsTraces(ThreadTraces(ts, table, threads[0]), RunThread(table, threads[0]), threads[1..])
  }

  /** Over every life of the table, starts of the event thread included, every session is what the run of its own
      registration and steps comes to. */
  lemma {:induction false} ThreadsTold(ts: Traces, table: Table, threads: seq<Thread>)
    requires Told(ts, table) && ValidThreads(table, threads)
    ensures |ts| == |table|
    ensures Told(ThreadsTraces(ts, table, threads), RunThreads(table, threads))
    decreases |threads|
  {
    hide Told, RunTurns, Allowed, ValidRun, AllowedTraces, TurnsTraces;
    SameLength(ts, table);
    if threads != [] {
      var thread := threads[0];
      AllowedTold(ts, table, thread.allowed);
      TurnsTold(AllowedTraces(ts, table, thread.allowed), Allowed(table, thread.allowed), thread.turns,
                thread.maxSessions, thread.fwd53);
      ThreadsTold(ThreadTraces(ts, table, thread), RunThread(table, thread), threads[1..]);
    }
  }

  /** A TCP session of the table and its trace. */
  ghost predicate TcpAt(threads: seq<Thread>, i: nat, o: Origin, steps: seq<TcpModel.Step>, c: TcpModel.Conn)
    requires ValidThreads([], threads)
  {
    var table, ts := RunThreads([], threads), ThreadsTraces([], [], threads);
    i < |table| && table[i].TcpSession? && table[i].tcp == c && ts[i] == TcpTrace(o, steps)
  }

  lemma TcpAtTold(threads: seq<Thread>, i: nat, o: Origin, steps: seq<TcpModel.Step>, c: TcpModel.Conn)
    requires ValidThreads([], threads) && TcpAt(threads, i, o, steps, c)
    ensures c == TcpModel.Run(Registered(o), steps)
  {
    hide TcpModel.Run, Registered, RunThreads, ThreadsTraces, ValidThreads;
    ThreadsTold([], [], threads);
    ToldAt(ThreadsTraces([], [], threads), RunThreads([], threads), i);
  }

  // ---------------------------------------------------------------- what follows for the table

  lemma OriginFresh(o: Origin) returns (c: TcpModel.Conn)
    ensures TcpLife.Fresh(c) && Registered(o) == TcpLife.Start(c, o.allowed)
    ensures o.pkt.data == [] <==> c.s.forward == []
  {
    hide TcpLife.Fresh, TcpLife.Start, TcpModel.NewSession;
    TcpLife.NewSessionStarts(o.pkt, o.dns, o.isn, o.mss, o.scale, o.free, o.now, o.allowed);
    c := TcpModel.NewSession(o.pkt, o.dns, o.isn, o.mss, o.scale, o.free, o.now, true);
  }

  /** Every TCP session that is ever in the table has its numbers right in both directions, and if it is deleted
      next, its usage is reported in full. */
  lemma TableNumbers(threads: seq<Thread>, i: nat, o: Origin, steps: seq<TcpModel.Step>, c: TcpModel.Conn,
                     a: TcpModel.AgeInput)
    requires ValidThreads([], threads) && TcpAt(threads, i, o, steps, c) && a.maxSessions > 0
    ensures TcpNumbers.NumbersInv(c) && TcpLife.LifeInv(c)
    ensures var (d, del) := TcpModel.CheckTcpSession(c, a);
            del ==> d.h.reports == (if |d.h.accepted| == 0 && |d.h.read| == 0 then []
                                    else [(|d.h.accepted|, |d.h.read|)])
  {
    hide TcpModel.Run, Registered, TcpAt, TcpNumbers.NumbersInv, TcpLife.LifeInv, TcpModel.CheckTcpSession;
    hide TcpLife.Fresh, TcpLife.Start, ValidThreads;
    TcpAtTold(threads, i, o, steps, c);
    var f := OriginFresh(o);
    TcpNumbers.StartNumbers(f, o.allowed, steps);
    TcpUsage.UsageConserved(f, o.allowed, steps, a);
  }

  /** For every TCP session ever in the table whose SYN carried no data, and every app that was honest in the steps
      it took: the server got a prefix of that app's stream, and, with FINs in order, no ACK covers a byte it did
      not get. */
  lemma TableFidelity(threads: seq<Thread>, i: nat, o: Origin, steps: seq<TcpModel.Step>, c: TcpModel.Conn,
                      app: TcpInvariants.App)
    requires ValidThreads([], threads) && TcpAt(threads, i, o, steps, c)
    requires o.pkt.data == [] && TcpInvariants.AllowedRun(Registered(o), steps, app)
    ensures c.h.accepted <= app.stream
    ensures app.finsInOrder ==>
              forall j, k | 0 <= j < |c.h.packets| && 0 <= k < |app.stream|
                            && TcpInvariants.Covers(c.h.packets[j], k) :: k < |c.h.accepted|
  {
    hide TcpModel.Run, Registered, TcpAt, TcpLife.Fresh, TcpLife.Start, ValidThreads, TcpInvariants.AllowedRun;
    TcpAtTold(threads, i, o, steps, c);
    var f := OriginFresh(o);
    TcpTheorems.OutboundFidelity(f, o.allowed, steps, app);
    if app.finsInOrder { TcpTheorems.AckSafety(f, o.allowed, steps, app); }
  }

  lemma {:induction false} AllowedThen(c: TcpModel.Conn, steps: seq<TcpModel.Step>, step: TcpModel.Step,
                                       app: TcpInvariants.App)
    ensures TcpInvariants.AllowedRun(c, steps + [step], app) <==>
            TcpInvariants.AllowedRun(c, steps, app) && TcpInvariants.Allowed(TcpModel.Run(c, steps), step, app)
    decreases |steps|
  {
    hide TcpModel.Apply, TcpInvariants.Allowed;
    if steps == [] {
      assert ([] + [step])[1..] == [] && TcpInvariants.AllowedRun(TcpModel.Apply(c, step), [], app);
    } else {
      assert (steps + [step])[1..] == steps[1..] + [step];
      AllowedThen(TcpModel.Apply(c, steps[0]), steps[1..], step, app);
    }
  }

  /** The app of a session was honest so far exactly if it was before the last packet and that packet is one the
      app may send in the state the table has. */
  lemma HonestPacket(ts: Traces, table: Table, p: TunPacket, allowed: bool, app: TcpInvariants.App)
    requires p.FromTcp? && Told(ts, table) && Find(table, true, p.key) < |table|
    ensures |ts| == |table|
    ensures var i := Find(table, true, p.key);
            var t, u := ts[i], TcpTraces(ts, table, p, allowed)[i];
            && t.TcpTrace? && u.TcpTrace? && u.origin == t.origin
            && (TcpInvariants.AllowedRun(Registered(u.origin), u.steps, app) <==>
                  && TcpInvariants.AllowedRun(Registered(t.origin), t.steps, app)
                  && TcpInvariants.Allowed(table[i].tcp, TcpModel.FromApp(p.pkt, p.now, p.ok), app))
  {
    hide TcpModel.Run, Registered, TcpInvariants.Allowed, TcpInvariants.AllowedRun, Told;
    var i := Find(table, true, p.key);
    ToldAt(ts, table, i);
    AllowedThen(Registered(ts[i].origin), ts[i].steps, TcpModel.FromApp(p.pkt, p.now, p.ok), app);
  }

  /** Starts of the event thread included, the session limit holds. */
  lemma {:induction false} ThreadsKeepBound(table: Table, threads: seq<Thread>, maxSessions: nat, fwd53: bool)
    requires Bounded(table, maxSessions, fwd53) && ValidThreads(table, threads)
    requires forall i | 0 <= i < |threads| :: threads[i].maxSessions == maxSessions && threads[i].fwd53 == fwd53
    ensures Bounded(RunThreads(table, threads), maxSessions, fwd53)
    decreases |threads|
  {
    hide RunTurns, Allowed, Valid, Count;
    if threads != [] {
      AllowedValid(fwd53, table, threads[0].allowed);
      RunKeepsBound(Allowed(table, threads[0].allowed), threads[0].turns, threads[0].maxSessions, threads[0].fwd53);
      ThreadsKeepBound(RunThread(table, threads[0]), threads[1..], maxSessions, fwd53);
    }
  }
}
