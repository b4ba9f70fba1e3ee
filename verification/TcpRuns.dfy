/** Runs of honest apps, from the SYN on, that stall a session for ever or send a byte twice. */
module TcpRuns {
  import opened Serial
  import opened TcpModel
  import DnsMessage
  import opened TcpLife
  import opened TcpOrder
  import opened TcpInvariants
  import opened TcpStall
  import opened TcpSynFidelity

  /** The app's SYN, and its session. */
  function Syn(data: Chunk): InPacket {
    InPacket(100, 0, 1000, true, false, false, false, false, false, data)
  }

  function Opened(data: Chunk): Conn {
    NewSession(Syn(data), false, 0, 1000, 0, 1000, 0, true)
  }

  /** A segment of the app that acknowledges the SYN-ACK. */
  function Data(seqNo: u32, data: Chunk): Step {
    FromApp(InPacket(seqNo, 1, 1000, false, true, false, false, false, false, data), 0, true)
  }

  /** The socket can be written to. */
  function Writable(sends: seq<SendResult>): Step {
    OnSocket(SocketEvent(false, false, true, 1000, sends, 1000, RecvRetry, DnsMessage.Verdict(false, 0), true, true, 0))
  }

  /** What of a session decides how it takes data and forwards it. */
  datatype View = View(state: State, open: bool, localSeq: u32, remoteSeq: u32, synSeen: nat, forwarded: nat,
                       forward: seq<Segment>, accepted: seq<u8>)

  function ViewOf(c: Conn): View {
    View(c.s.state, c.s.open, c.s.localSeq, c.s.remoteSeq, c.h.synSeen, c.h.forwarded, c.s.forward, c.h.accepted)
  }

  lemma Opens(data: Chunk)
    ensures ViewOf(Opened(data)) == View(Listen, true, 0, 100, 0, 0,
                                         if data == [] then [] else [Segment(100, data, 0, false)], [])
  {
    hide GetReceiveWindow, Scaled;
  }

  lemma Connects(c: Conn)
    requires c.s.state == Listen && c.s.open
    ensures ViewOf(Apply(c, Writable([]))) == ViewOf(c).(state := SynRecv, localSeq := Plus(c.s.localSeq, 1),
              remoteSeq := Plus(c.s.remoteSeq, 1), synSeen := c.h.synSeen + 1)
  {
    hide Plus, Minus;
  }

  lemma Files(c: Conn, seqNo: u32, data: Chunk)
    requires c.s.open && (c.s.state == SynRecv || c.s.state == Established) && c.s.localSeq == 1
    requires data != [] && CompareU32(seqNo, c.s.remoteSeq) >= 0
    ensures ViewOf(Apply(c, Data(seqNo, data))) ==
            ViewOf(c).(state := Established, forward := Insert(c.s.forward, Segment(seqNo, data, 0, false)))
  {
    hide Scaled, Insert, CompareU32;
  }

  lemma Sends(c: Conn, sends: seq<SendResult>)
    requires c.s.open && c.s.state == Established
    requires Forward(c, 1000, sends, false).0.s.state == Established
    ensures ViewOf(Apply(c, Writable(sends))) == ViewOf(Forward(c, 1000, sends, false).0)
  {
    hide Forward, GetReceiveWindow, Minus;
  }

  /** Four steps, one by one. */
  lemma FourSteps(c: Conn, steps: seq<Step>, app: App) returns (c1: Conn, c2: Conn, c3: Conn)
    requires |steps| == 4
    ensures c1 == Apply(c, steps[0]) && c2 == Apply(c1, steps[1]) && c3 == Apply(c2, steps[2])
    ensures Run(c, steps) == Apply(c3, steps[3])
    ensures (Allowed(c, steps[0], app) && Allowed(c1, steps[1], app) && Allowed(c2, steps[2], app)
             && Allowed(c3, steps[3], app)) ==> AllowedRun(c, steps, app)
  {
    hide Apply, Allowed;
    c1 := Apply(c, steps[0]);
    c2 := Apply(c1, steps[1]);
    c3 := Apply(c2, steps[2]);
    var r1, r2, r3 := steps[1..], steps[2..], steps[3..];
    assert r1[1..] == r2 && r2[1..] == r3 && r3[1..] == [];
    var c4 := Apply(c3, steps[3]);
    assert Run(c4, []) == c4 && AllowedRun(c4, [], app);
    assert Run(c3, r3) == c4 && (Allowed(c3, steps[3], app) ==> AllowedRun(c3, r3, app));
    assert Run(c2, r2) == c4 && (Allowed(c3, steps[3], app) && Allowed(c2, steps[2], app) ==> AllowedRun(c2, r2, app));
  }

  // ---------------------------------------------------------------- what the app sends

  const STREAM: seq<u8> := [7, 8, 9]

  /** Bytes 0 and 1, then, its stream cut another way, bytes 1 and 2. */
  function Overlapping(): seq<Step> {
    [Writable([]), Data(101, [7, 8]), Data(102, [8, 9]), Writable([Sent(2)])]
  }

  /** Bytes 0 to 2, of which the server takes two, then byte 0 again. */
  function Shrinking(): seq<Step> {
    [Writable([]), Data(101, [7, 8, 9]), Writable([Sent(2)]), Data(101, [7])]
  }

  /** In the numbers of the stream: byte `k` has the number `101 + k`. */
  lemma HonestData(c: Conn, seqNo: u32, data: Chunk, app: App)
    requires c.h.synSeen == 1 && c.s.remoteSeq == 101 + c.h.forwarded && c.h.forwarded <= 3
    requires app.stream == STREAM && 101 <= seqNo && seqNo - 101 + |data| <= 3
    requires data == STREAM[seqNo - 101..seqNo - 101 + |data|]
    ensures Allowed(c, Data(seqNo, data), app)
  {
  }

  lemma HonestEvent(c: Conn, sends: seq<SendResult>, app: App)
    ensures Allowed(c, Writable(sends), app)
  {
  }

  lemma {:induction false} Inserted(seg: Segment, more: Segment)
    ensures CompareU32(seg.start, more.start) < 0 ==> Insert([seg], more) == [seg, more]
    ensures seg.start == more.start && |seg.data| != |more.data| ==> Insert([seg], more) == [seg.(data := more.data)]
    ensures Insert([], seg) == [seg]
  {
    assert [seg][1..] == [];
  }

  /** An honest app that overlaps its segments leaves the session stuck for good: byte 2 is held and never sent. */
  lemma OverlapStalls()
    ensures var c, app := Opened([]), App(STREAM, true);
            var d := Run(c, Overlapping());
            && Fresh(c) && c.s.forward == [] && AllowedRun(c, Overlapping(), app)
            && Behind(d) && forall more | InReachRun(d, more) :: Run(d, more).h.accepted == [7, 8]
  {
    hide Apply, Allowed, Forward, Insert, NewSession, Run, InReachRun, Stalled;
    var c, app := Opened([]), App(STREAM, true);
    NewSessionStarts(Syn([]), false, 0, 1000, 0, 1000, 0, true);
    Opens([]);
    var c1, c2, c3 := FourSteps(c, Overlapping(), app);
    HonestEvent(c, [], app);
    Connects(c);
    HonestData(c1, 101, [7, 8], app);
    Files(c1, 101, [7, 8]);
    Inserted(Segment(101, [7, 8], 0, false), Segment(102, [8, 9], 0, false));
    HonestData(c2, 102, [8, 9], app);
    Files(c2, 102, [8, 9]);
    HonestEvent(c3, [Sent(2)], app);
    TwoTaken(c3);
    Sends(c3, [Sent(2)]);
    var d := Run(c, Overlapping());
    StalledBehind(d);
    forall more | InReachRun(d, more) ensures Run(d, more).h.accepted == [7, 8] {
      BehindNeverRefilled(d, more);
      StuckForever(d, more);
    }
  }

  lemma StalledBehind(c: Conn)
    requires c.s.state == Established && Behind(c)
    ensures Stalled(c)
  {
  }

  lemma TwoTaken(c: Conn)
    requires c.s.state == Established && c.s.remoteSeq == 101 && c.h.accepted == []
    requires c.s.forward == [Segment(101, [7, 8], 0, false), Segment(102, [8, 9], 0, false)]
    ensures var d := Forward(c, 1000, [Sent(2)], false).0;
            && d.s.state == Established && d.s.remoteSeq == 103 && d.s.forward == [Segment(102, [8, 9], 0, false)]
            && d.h.accepted == [7, 8]
  {
    assert [Sent(2)][1..] == [];
  }

  /** An honest app that sends less of its stream again overdraws the head: until it sends as much as was sent
      before, nothing moves. */
  lemma ShrinkingStalls()
    ensures var c, app := Opened([]), App(STREAM, true);
            var d := Run(c, Shrinking());
            && Fresh(c) && c.s.forward == [] && AllowedRun(c, Shrinking(), app)
            && Overdrawn(d)
            && forall more | InReachRun(d, more) && NeverRefilled(d, more) :: Run(d, more).h.accepted == [7, 8]
  {
    hide Apply, Allowed, Forward, Insert, NewSession, Run, InReachRun, NeverRefilled, Stalled;
    var c, app := Opened([]), App(STREAM, true);
    NewSessionStarts(Syn([]), false, 0, 1000, 0, 1000, 0, true);
    Opens([]);
    var c1, c2, c3 := FourSteps(c, Shrinking(), app);
    HonestEvent(c, [], app);
    Connects(c);
    HonestData(c1, 101, [7, 8, 9], app);
    Files(c1, 101, [7, 8, 9]);
    Inserted(Segment(101, [7, 8, 9], 0, false), Segment(101, [7], 0, false));
    HonestEvent(c2, [Sent(2)], app);
    PartTaken(c2);
    Sends(c2, [Sent(2)]);
    Inserted(Segment(101, [7, 8, 9], 2, false), Segment(101, [7], 0, false));
    HonestData(c3, 101, [7], app);
    Files(c3, 101, [7]);
    var d := Run(c, Shrinking());
    StalledOverdrawn(d);
    forall more | InReachRun(d, more) && NeverRefilled(d, more) ensures Run(d, more).h.accepted == [7, 8] {
      StuckForever(d, more);
    }
  }

  lemma StalledOverdrawn(c: Conn)
    requires c.s.state == Established && Overdrawn(c)
    ensures Stalled(c)
  {
  }

  lemma PartTaken(c: Conn)
    requires c.s.state == Established && c.s.remoteSeq == 101 && c.h.accepted == []
    requires c.s.forward == [Segment(101, [7, 8, 9], 0, false)]
    ensures var d := Forward(c, 1000, [Sent(2)], false).0;
            && d.s.state == Established && d.s.remoteSeq == 101 && d.s.forward == [Segment(101, [7, 8, 9], 2, false)]
            && d.h.accepted == [7, 8] && d.s.open == c.s.open && d.s.localSeq == c.s.localSeq
            && d.h.synSeen == c.h.synSeen && d.h.forwarded == c.h.forwarded
  {
  }

  // ---------------------------------------------------------------- a byte sent twice

  /** Bytes 1 and 2 before the SYN-ACK. */
  function Early(): Step {
    FromApp(InPacket(102, 0, 1000, false, false, false, false, false, false, [8, 9]), 0, true)
  }

  function Reset(): Step {
    FromApp(InPacket(104, 0, 1000, false, false, false, true, false, false, []), 0, true)
  }

  /** The SYN carries bytes 0 and 1, bytes 1 and 2 follow, then a reset before the socket connects: byte 1 reaches
      the server twice. */
  lemma ByteSentTwice()
    ensures var c, steps := Opened([7, 8]), [Early(), Reset(), Writable([Sent(2), Sent(2)])];
            && Fresh(c) && SynHonestRun(c, steps, STREAM)
            && Run(c, steps).h.accepted == [7, 8, 8, 9]
  {
    hide Apply, Forward, Insert, NewSession, SynHonest;
    var c, steps := Opened([7, 8]), [Early(), Reset(), Writable([Sent(2), Sent(2)])];
    NewSessionStarts(Syn([7, 8]), false, 0, 1000, 0, 1000, 0, true);
    Opens([7, 8]);
    var c1 := Apply(c, steps[0]);
    Inserted(Segment(100, [7, 8], 0, false), Segment(102, [8, 9], 0, false));
    FilesEarly(c);
    var c2 := Apply(c1, steps[1]);
    Slips(c1);
    var c3 := Apply(c2, steps[2]);
    FourTaken(c2);
    SendsClosing(c2, [Sent(2), Sent(2)]);
    EarlyHonest(c);
    QuietHonest(c1, c2);
    var r1, r2 := steps[1..], steps[2..];
    assert r1[1..] == r2 && r2[1..] == [];
    assert Run(c3, []) == c3 && SynHonestRun(c3, [], STREAM);
    assert Run(c2, r2) == c3 && SynHonestRun(c2, r2, STREAM);
    assert Run(c1, r1) == c3 && SynHonestRun(c1, r1, STREAM);
  }

  lemma FilesEarly(c: Conn)
    requires c.s.open && c.s.state == Listen && c.s.remoteSeq == 100
    ensures ViewOf(Apply(c, Early())) ==
            ViewOf(c).(forward := Insert(c.s.forward, Segment(102, [8, 9], 0, false)))
  {
    hide Scaled, Insert;
  }

  lemma Slips(c: Conn)
    requires c.s.open && c.s.state == Listen
    ensures ViewOf(Apply(c, Reset())) == ViewOf(c).(state := Closing)
  {
    hide Scaled;
  }

  lemma FourTaken(c: Conn)
    requires c.s.state == Closing && c.s.remoteSeq == 100 && c.h.accepted == []
    requires c.s.forward == [Segment(100, [7, 8], 0, false), Segment(102, [8, 9], 0, false)]
    ensures var d := Forward(c, 1000, [Sent(2), Sent(2)], false).0;
            d.s.state == Closing && d.h.accepted == [7, 8, 8, 9]
  {
    var d := TakeHead(c, 2);
    var e := TakeHead(d, 2);
    assert Forward(e, 996, [], true) == (e, true);
    assert [Sent(2)][1..] == [] && [Sent(2), Sent(2)][1..] == [Sent(2)];
    assert Forward(d, 998, [Sent(2)], true) == (e, true);
  }

  lemma SendsClosing(c: Conn, sends: seq<SendResult>)
    requires c.s.open && c.s.state == Closing
    ensures Apply(c, Writable(sends)).h.accepted == Forward(c, 1000, sends, false).0.h.accepted
  {
    hide Forward, Acknowledge, ReadSocket;
    var (d, fwd) := Forward(c, 1000, sends, false);
    AcknowledgeAccepts(d, fwd, Writable(sends).ev);
    ReadAccepts(Acknowledge(d, fwd, Writable(sends).ev), Writable(sends).ev);
  }

  lemma EarlyHonest(c: Conn)
    requires c.s.remoteSeq == 100
    ensures SynHonest(c, Early(), STREAM)
  {
  }

  lemma QuietHonest(c: Conn, d: Conn)
    ensures SynHonest(c, Reset(), STREAM) && SynHonest(d, Writable([Sent(2), Sent(2)]), STREAM)
  {
  }
}
