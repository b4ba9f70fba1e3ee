/** Which bytes reach the server when the SYN carries data: a prefix of the app's stream, or the data of the SYN
    with its last byte sent twice. */
module TcpSynFidelity {
  import opened Serial
  import opened TcpModel
  import opened TcpLife
  import opened TcpOrder
  import opened TcpInvariants
  import opened TcpStall
  import opened TcpSynData
  import opened TcpTheorems
  import DnsMessage

  /** The app numbers one stream: the SYN, also when it is repeated, carries the first bytes of it, and byte `k`
      has the number of the SYN plus `1 + k`. */
  ghost predicate SynHonest(c: Conn, step: Step, stream: seq<u8>) {
    && InReach(c, step)
    && (step.FromApp? && step.pkt.data != [] && c.s.state == Listen ==>
          if step.pkt.seqNo == c.s.remoteSeq then step.pkt.data <= stream
          else 0 < Ahead(step.pkt.seqNo, c.s.remoteSeq) ==>
            Piece(Segment(step.pkt.seqNo, step.pkt.data, 0, step.pkt.psh), c.s.remoteSeq, -1, stream))
  }

  ghost predicate SynHonestRun(c: Conn, steps: seq<Step>, stream: seq<u8>)
    decreases |steps|
  {
    steps == [] || (SynHonest(c, steps[0], stream) && SynHonestRun(Apply(c, steps[0]), steps[1..], stream))
  }

  /** The data of the SYN, untouched at its place, and behind it the segments the app sent besides. */
  ghost predicate SynQueue(c: Conn, stream: seq<u8>) {
    && Waiting(c) && c.h.accepted == [] && c.h.forwarded == 0
    && c.s.forward[0].data <= stream && Queued(c.s.forward[1..], c.s.remoteSeq, -1, stream)
    && NonEmpty(c.s.forward)
  }

  predicate NonEmpty(q: seq<Segment>) {
    forall i | 0 <= i < |q| :: q[i].data != []
  }

  /** A queued segment starts where the data of the SYN would end if the SYN had no number of its own. */
  predicate Repeats(c: Conn)
    requires c.s.forward != []
  {
    |c.s.forward| > 1 && c.s.forward[1].start == Plus(c.s.forward[0].start, |c.s.forward[0].data|)
  }

  // ---------------------------------------------------------------- before the SYN is counted

  lemma InsertBehind(q: seq<Segment>, seg: Segment, base: u32, stream: seq<u8>)
    requires q != [] && q[0].start == base && Queued(q[1..], base, -1, stream)
    requires Piece(seg, base, -1, stream) && seg.sent == 0
    ensures Insert(q, seg) != [] && Insert(q, seg)[0] == q[0] && Queued(Insert(q, seg)[1..], base, -1, stream)
  {
    hide Insert, CompareU32, Queued, Plus;
    BehindBase(seg, base, stream);
    InsertedTail(q, seg);
    InsertKeepsOrder(q[1..], seg, base, -1, stream);
  }

  lemma BehindBase(seg: Segment, base: u32, stream: seq<u8>)
    requires Piece(seg, base, -1, stream)
    ensures 0 < Ahead(seg.start, base) && CompareU32(base, seg.start) < 0
  {
    AheadOfItself(base);
    CompareFromBase(base, seg.start, base);
  }

  lemma InsertedTail(q: seq<Segment>, seg: Segment)
    requires q != [] && CompareU32(q[0].start, seg.start) < 0
    ensures Insert(q, seg) == [q[0]] + Insert(q[1..], seg)
  {
  }

  lemma {:induction false} InsertNonEmpty(q: seq<Segment>, seg: Segment)
    requires NonEmpty(q) && seg.data != []
    ensures NonEmpty(Insert(q, seg))
  {
    hide CompareU32;
    if q != [] { InsertNonEmpty(q[1..], seg); }
  }

  lemma SynAgain(q: seq<Segment>, seg: Segment)
    requires q != [] && q[0].start == seg.start
    ensures Insert(q, seg) != [] && (Insert(q, seg)[0] == q[0] || Insert(q, seg)[0] == q[0].(data := seg.data))
    ensures Insert(q, seg)[1..] == q[1..]
  {
  }

  /** A packet leaves the queue of the SYN in order. */
  lemma QueueKeepsSyn(c: Conn, pkt: InPacket, now: int, ok: bool, stream: seq<u8>)
    requires SynQueue(c, stream) && c.s.state == Listen && SynHonest(c, FromApp(pkt, now, ok), stream) && pkt.data != []
    ensures SynQueue(QueueTcp(c, pkt), stream)
  {
    hide Ahead, Queued, Insert, Piece, NonEmpty;
    var seg := Segment(pkt.seqNo, pkt.data, 0, pkt.psh);
    AheadOfItself(c.s.remoteSeq);
    CompareFromBase(pkt.seqNo, c.s.remoteSeq, c.s.remoteSeq);
    SameNumber(pkt.seqNo, c.s.remoteSeq);
    InsertNonEmpty(c.s.forward, seg);
    if pkt.seqNo == c.s.remoteSeq {
      SynAgain(c.s.forward, seg);
    } else if CompareU32(pkt.seqNo, c.s.remoteSeq) > 0 {
      InsertBehind(c.s.forward, seg, c.s.remoteSeq, stream);
    }
  }

  /** While the SYN is not counted, nothing but a packet's data touches the queue. */
  lemma ListenQueue(c: Conn, step: Step)
    requires c.s.state == Listen && c.s.open && c.h.synSeen == 0 && Apply(c, step).h.synSeen == 0
    ensures SameOuter(if step.FromApp? && step.pkt.data != [] && !step.pkt.urg then QueueTcp(c, step.pkt) else c,
                      Apply(c, step))
  {
    hide QueueTcp, HandleTcp, CheckTcpSocket, MonitorTcpSession, CheckTcpSession;
    match step
    case FromApp(pkt, now, ok) => ListenPacket(c, pkt, now, ok);
    case OnSocket(ev) => ListenSocket(c, ev);
    case OnMonitor(m) => MonitorOuter(c, m);
    case OnAge(a) => if a.maxSessions > 0 { AgeOuter(c, a); }
    case Disallow => ListenReset(c);
  }

  lemma ListenReset(c: Conn)
    requires c.s.state == Listen && c.h.synSeen == 0
    ensures WriteRst(c).h.synSeen == 1
  {
  }

  lemma ListenSocket(c: Conn, ev: SocketEvent)
    requires c.s.state == Listen && c.h.synSeen == 0 && CheckTcpSocket(c, ev).h.synSeen == 0
    ensures CheckTcpSocket(c, ev) == c
  {
    hide Plus, Minus;
  }

  lemma ListenPacket(c: Conn, pkt: InPacket, now: int, ok: bool)
    requires c.s.state == Listen && c.s.open && c.h.synSeen == 0 && HandleTcp(c, pkt, now, ok).h.synSeen == 0
    ensures SameOuter(if pkt.data != [] && !pkt.urg then QueueTcp(c, pkt) else c, HandleTcp(c, pkt, now, ok))
  {
    hide HandleFlags, Insert, CompareU32, Scaled;
    var d := Refresh(c, pkt, now);
    if !pkt.urg { ListenFlags(if pkt.data != [] then QueueTcp(d, pkt) else d, pkt, ok); }
  }

  lemma ListenFlags(c: Conn, pkt: InPacket, ok: bool)
    requires c.s.state == Listen && c.h.synSeen == 0 && HandleFlags(c, pkt, ok).h.synSeen == 0
    ensures SameOuter(c, HandleFlags(c, pkt, ok))
  {
    hide Plus, CompareU32, WriteRst;
    ListenReset(c);
  }

  /** So the queue of the SYN is in order as long as its data waits. */
  lemma StepKeepsSyn(c: Conn, step: Step, stream: seq<u8>)
    requires SynQueue(c, stream) && c.s.state == Listen && SynHonest(c, step, stream)
    ensures var d := Apply(c, step); SynQueue(d, stream) || (Stalled(d) && Behind(d) && d.h.accepted == [])
  {
    hide Apply, InReach, Stalled, Behind, Queued, QueueTcp, SynHonest, NonEmpty;
    InReachOf(c, step, stream);
    StepTakes(c, step);
    var d := Apply(c, step);
    if Waiting(d) {
      ListenQueue(c, step);
      if step.FromApp? && step.pkt.data != [] { QueueKeepsSyn(c, step.pkt, step.now, step.ok, stream); }
    }
  }

  lemma InReachOf(c: Conn, step: Step, stream: seq<u8>)
    requires SynHonest(c, step, stream)
    ensures InReach(c, step)
    ensures step.FromApp? ==> SynHonest(c, FromApp(step.pkt, step.now, step.ok), stream)
  {
  }

  // ---------------------------------------------------------------- after a slip

  /** `n` bytes of SYN data at their place, `remote_seq` not counting the SYN, and nothing queued any more: while
      the data is sent, and behind it. */
  ghost predicate Slid(c: Conn, n: nat, repeats: bool, stream: seq<u8>) {
    && c.h.synSeen == 0 && (c.s.state == Closing || c.s.state == Close)
    && (AtSyn(c, n, repeats, stream) || PastSyn(c, n, repeats, stream))
  }

  ghost predicate AtSyn(c: Conn, n: nat, repeats: bool, stream: seq<u8>) {
    && 0 < n <= |stream| && c.s.forward != [] && c.s.forward[0].start == c.s.remoteSeq
    && c.s.forward[0].data == stream[..n]
    && c.h.forwarded == 0 && c.s.forward[0].sent <= n && c.h.accepted == stream[..c.s.forward[0].sent]
    && Queued(c.s.forward[1..], c.s.remoteSeq, -1, stream)
    && (repeats <==> Repeats(c))
  }

  /** The bytes of the stream from `n - 1` on follow, one number too early. */
  ghost predicate PastSyn(c: Conn, n: nat, repeats: bool, stream: seq<u8>) {
    var end := c.h.forwarded - 1 + HeadSent(c.s.forward);
    && 0 < n <= |stream| && n <= c.h.forwarded && end <= |stream| && c.h.accepted == stream[..n] + stream[n - 1..end]
    && Queued(c.s.forward, c.s.remoteSeq, c.h.forwarded - 1, stream)
    && (!repeats ==> end == n - 1 && (c.s.forward == [] || c.s.forward[0].start != c.s.remoteSeq))
  }

  lemma SlidKept(c: Conn, d: Conn, n: nat, repeats: bool, stream: seq<u8>)
    requires Slid(c, n, repeats, stream) && SameOuter(c, d) && (d.s.state == Closing || d.s.state == Close)
    ensures Slid(d, n, repeats, stream)
  {
    hide Queued, Plus;
  }

  lemma PartOfSyn(c: Conn, m: nat, n: nat, repeats: bool, stream: seq<u8>)
    requires Slid(c, n, repeats, stream) && AtSyn(c, n, repeats, stream) && c.s.forward[0].sent + m < n
    ensures AtSyn(TakeHead(c, m), n, repeats, stream)
  {
    hide Queued, Plus;
    SliceOfSlice(stream, 0, n, c.s.forward[0].sent, c.s.forward[0].sent + m);
  }

  /** What came after the SYN lies one number too far for a `remote_seq` that does not count it. */
  lemma SynPopped(q: seq<Segment>, base: u32, n: nat, stream: seq<u8>)
    requires Queued(q, base, -1, stream) && n < 0x1_0000
    ensures Queued(q, Plus(base, n), n - 1, stream) && HeadSent(q) == 0
  {
    hide Ahead, Plus;
    AheadOfItself(base);
    forall i | 0 <= i < |q|
      ensures Ahead(q[i].start, Plus(base, n)) == Ahead(q[i].start, base) - n
      ensures Piece(q[i], Plus(base, n), n - 1, stream) && q[i].sent == 0
    {
      assert Piece(q[i], base, -1, stream);
      AheadAfterAdvance(q[i].start, base, n);
    }
  }

  lemma WholeOfSyn(c: Conn, m: nat, n: nat, repeats: bool, stream: seq<u8>)
    requires Slid(c, n, repeats, stream) && AtSyn(c, n, repeats, stream) && c.s.forward[0].sent + m == n
    ensures PastSyn(TakeHead(c, m), n, repeats, stream)
  {
    hide Queued, Plus;
    SliceOfSlice(stream, 0, n, c.s.forward[0].sent, n);
    SynPopped(c.s.forward[1..], c.s.remoteSeq, n, stream);
  }

  /** More of a segment behind the data of the SYN. */
  lemma TakePastSyn(c: Conn, m: nat, n: nat, repeats: bool, stream: seq<u8>)
    requires PastSyn(c, n, repeats, stream) && c.s.forward != [] && c.s.forward[0].start == c.s.remoteSeq
    requires c.s.forward[0].sent + m <= |c.s.forward[0].data|
    ensures PastSyn(TakeHead(c, m), n, repeats, stream)
  {
    hide Queued, Plus;
    var q, base, off := c.s.forward, c.s.remoteSeq, c.h.forwarded - 1;
    HeadPiece(q, base, off, stream);
    TakeAccepts(c, m, n, stream);
    if q[0].sent + m < |q[0].data| {
      PartQueued(q, m, base, off, stream);
    } else {
      PopKeepsOrder(q, base, off, stream);
    }
  }

  lemma TakeAccepts(c: Conn, m: nat, n: nat, stream: seq<u8>)
    requires 0 < n <= |stream| && n <= c.h.forwarded && c.s.forward != []
    requires c.s.forward[0].sent + m <= |c.s.forward[0].data|
    requires var off, seg := c.h.forwarded - 1, c.s.forward[0];
             && off + |seg.data| <= |stream| && seg.data == stream[off..off + |seg.data|]
             && c.h.accepted == stream[..n] + stream[n - 1..off + seg.sent]
    ensures var off, seg := c.h.forwarded - 1, c.s.forward[0];
            TakeHead(c, m).h.accepted == stream[..n] + stream[n - 1..off + seg.sent + m]
  {
    hide TakeHead;
    Taken(c, m);
    NextSlice(stream, n, c.h.forwarded - 1, c.s.forward[0].data, c.s.forward[0].sent, m);
  }

  lemma NextSlice(stream: seq<u8>, n: nat, off: nat, data: seq<u8>, sent: nat, m: nat)
    requires 0 < n <= |stream| && n - 1 <= off && sent + m <= |data|
    requires off + |data| <= |stream| && data == stream[off..off + |data|]
    ensures stream[..n] + stream[n - 1..off + sent] + data[sent..sent + m] ==
            stream[..n] + stream[n - 1..off + sent + m]
  {
    SliceOfSlice(stream, off, |data|, sent, sent + m);
    SlicesJoin(stream, n, off + sent, off + sent + m);
  }

  lemma SlicesJoin(stream: seq<u8>, n: nat, a: nat, b: nat)
    requires 0 < n <= |stream| && n - 1 <= a <= b <= |stream|
    ensures stream[..n] + stream[n - 1..a] + stream[a..b] == stream[..n] + stream[n - 1..b]
  {
  }

  lemma {:induction false} ForwardSlid(c: Conn, free: nat, sends: seq<SendResult>, fwd: bool, n: nat, repeats: bool,
                                       stream: seq<u8>)
    requires Slid(c, n, repeats, stream) && c.s.state == Closing
    ensures var d := Forward(c, free, sends, fwd).0; Slid(d, n, repeats, stream) && d.s.state == Closing
    decreases |sends|
  {
    hide AtSyn, PastSyn, TakeHead, WriteRst, SameOuter;
    if HeadReady(c.s, free) && sends != [] {
      match sends[0]
      case SendRetry =>
      case SendFailed => RstOuter(c); RstNotClose(c); SlidKept(c, WriteRst(c), n, repeats, stream);
      case Sent(count) =>
        var offered := |c.s.forward[0].data| - c.s.forward[0].sent;
        var m := if count <= offered then count else offered;
        TakeSlid(c, m, n, repeats, stream);
        if m == offered { ForwardSlid(TakeHead(c, m), free - m, sends[1..], true, n, repeats, stream); }
    }
  }

  lemma TakeSlid(c: Conn, m: nat, n: nat, repeats: bool, stream: seq<u8>)
    requires Slid(c, n, repeats, stream) && c.s.forward != [] && c.s.forward[0].start == c.s.remoteSeq
    requires c.s.forward[0].sent + m <= |c.s.forward[0].data|
    ensures Slid(TakeHead(c, m), n, repeats, stream) && TakeHead(c, m).s.state == c.s.state
  {
    hide PastSyn, Queued, Plus;
    if PastSyn(c, n, repeats, stream) {
      TakePastSyn(c, m, n, repeats, stream);
    } else if c.s.forward[0].sent + m < n {
      PartOfSyn(c, m, n, repeats, stream);
    } else {
      WholeOfSyn(c, m, n, repeats, stream);
    }
  }

  lemma SocketSlid(c: Conn, ev: SocketEvent, n: nat, repeats: bool, stream: seq<u8>)
    requires Slid(c, n, repeats, stream) && c.s.state == Closing
    ensures Slid(CheckTcpSocket(c, ev), n, repeats, stream)
  {
    hide AtSyn, PastSyn, Forward, Acknowledge, ReadSocket, WriteRst, SameOuter;
    if ev.err {
      var t := c.(s := c.s.(time := ev.now));
      TimeOuter(c, ev.now);
      SlidKept(c, t, n, repeats, stream);
      RstOuter(t);
      RstNotClose(t);
      SlidKept(t, WriteRst(t), n, repeats, stream);
    } else {
      ForwardSlid(c, ev.free, ev.sends, false, n, repeats, stream);
      var (d, fwd) := if ev.writable then Forward(c, ev.free, ev.sends, false) else (c, false);
      AcknowledgeOuter(d, fwd, ev);
      AcknowledgeEnds(d, fwd, ev);
      SlidKept(d, Acknowledge(d, fwd, ev), n, repeats, stream);
      ReadAccepts(Acknowledge(d, fwd, ev), ev);
    }
  }

  lemma TimeOuter(c: Conn, now: int)
    ensures SameOuter(c, c.(s := c.s.(time := now)))
  {
  }

  lemma AcknowledgeEnds(c: Conn, fwd: bool, ev: SocketEvent)
    requires c.s.state == Closing
    ensures Acknowledge(c, fwd, ev).s.state == Closing
  {
    hide GetReceiveWindow, Minus;
  }

  lemma StepSlid(c: Conn, step: Step, n: nat, repeats: bool, stream: seq<u8>)
    requires Slid(c, n, repeats, stream) && (c.s.state == Close ==> !c.s.open)
    ensures var d := Apply(c, step); Slid(d, n, repeats, stream) && (d.s.state == Close ==> !d.s.open)
  {
    hide AtSyn, PastSyn, CheckTcpSocket;
    if step.OnSocket? && c.s.open {
      SocketSlid(c, step.ev, n, repeats, stream);
      SocketNotClose(c, step.ev);
    } else {
      EndedOuter(c, step);
      SlidKept(c, Apply(c, step), n, repeats, stream);
    }
  }

  /** A session that has ended takes no data. */
  lemma EndedOuter(c: Conn, step: Step)
    requires c.s.state == Closing || (c.s.state == Close && !c.s.open)
    requires step.OnSocket? ==> !c.s.open
    ensures var d := Apply(c, step);
            SameOuter(c, d) && (d.s.state == Closing || (d.s.state == Close && !d.s.open))
  {
    hide CheckTcpSocket, GetSendWindow, HeadReady, GetTcpTimeout, Minus;
  }

  lemma {:induction false} RunSlid(c: Conn, steps: seq<Step>, n: nat, repeats: bool, stream: seq<u8>)
    requires Slid(c, n, repeats, stream) && (c.s.state == Close ==> !c.s.open)
    ensures Slid(Run(c, steps), n, repeats, stream)
    decreases |steps|
  {
    hide Slid, Apply;
    if steps != [] {
      StepSlid(c, steps[0], n, repeats, stream);
      RunSlid(Apply(c, steps[0]), steps[1..], n, repeats, stream);
    }
  }

  // ---------------------------------------------------------------- every run

  lemma ClosedAccepts(c: Conn, steps: seq<Step>)
    requires c.s.state == Close && !c.s.open
    ensures Run(c, steps).h.accepted == c.h.accepted
    decreases |steps|
  {
    hide Apply;
    if steps != [] {
      EndedOuter(c, steps[0]);
      ClosedStays(c, steps[0]);
      ClosedAccepts(Apply(c, steps[0]), steps[1..]);
    }
  }

  lemma ClosedStays(c: Conn, step: Step)
    requires c.s.state == Close && !c.s.open
    ensures Apply(c, step).s.state == Close && !Apply(c, step).s.open
  {
    hide GetTcpTimeout, Minus;
  }

  /** The data of the SYN waits after a slip, with nothing sent yet. */
  lemma SlipSlides(c: Conn, stream: seq<u8>)
    requires SynQueue(c, stream) && c.s.state != Listen
    ensures Slid(c, |c.s.forward[0].data|, Repeats(c), stream) && (c.s.state == Close ==> !c.s.open)
  {
    hide Queued, Plus;
  }

  /** What reaches the server then. */
  lemma SlidBytes(c: Conn, n: nat, repeats: bool, stream: seq<u8>)
    requires Slid(c, n, repeats, stream)
    ensures 0 < n <= |stream|
    ensures c.h.accepted <= stream[..n]
            || (repeats && n < |c.h.accepted| <= |stream| + 1
                && c.h.accepted == stream[..n] + stream[n - 1..|c.h.accepted| - 1])
  {
    hide Queued, Plus;
  }

  /** Somewhere on the run the session has slipped with the data of the SYN untouched and such a segment queued. */
  ghost predicate RepeatsAfterSlip(c: Conn, steps: seq<Step>)
    decreases |steps|
  {
    || (Slipped(c) && Waiting(c) && Repeats(c))
    || (steps != [] && RepeatsAfterSlip(Apply(c, steps[0]), steps[1..]))
  }

  /** The beginning of the stream, or, only if `repeats`, the first `n` bytes and then the stream from byte `n - 1`
      on: that byte twice. */
  ghost predicate Delivered(accepted: seq<u8>, stream: seq<u8>, repeats: bool) {
    accepted <= stream || (repeats && exists n :: SentTwice(accepted, n, stream))
  }

  ghost predicate SentTwice(accepted: seq<u8>, n: nat, stream: seq<u8>) {
    && 0 < n < |accepted| <= |stream| + 1 && n <= |stream|
    && accepted == stream[..n] + stream[n - 1..|accepted| - 1]
  }

  lemma HonestInReach(c: Conn, steps: seq<Step>, stream: seq<u8>)
    requires SynHonestRun(c, steps, stream)
    ensures InReachRun(c, steps)
    decreases |steps|
  {
    hide Apply, InReach, Piece;
    if steps != [] { HonestInReach(Apply(c, steps[0]), steps[1..], stream); }
  }

  lemma {:induction false} WaitingBytes(c: Conn, steps: seq<Step>, stream: seq<u8>)
    requires SynQueue(c, stream) && SynHonestRun(c, steps, stream)
    ensures Delivered(Run(c, steps).h.accepted, stream, RepeatsAfterSlip(c, steps))
    ensures Run(c, steps).h.synSeen == 0 || Run(c, steps).s.forward != []
    decreases |steps|
  {
    hide Apply, SynHonest, Slid, Queued, Repeats, NonEmpty, SentTwice, Stalled, Behind;
    if c.s.state != Listen {
      SlipSlides(c, stream);
      RunSlid(c, steps, |c.s.forward[0].data|, Repeats(c), stream);
      SlidUncounted(Run(c, steps), |c.s.forward[0].data|, Repeats(c), stream);
    }
    if c.s.state == Close {
      ClosedAccepts(c, steps);
    } else if c.s.state == Closing {
      SlidDelivers(Run(c, steps), |c.s.forward[0].data|, Repeats(c), stream);
    } else if steps != [] {
      var d := Apply(c, steps[0]);
      StepKeepsSyn(c, steps[0], stream);
      if SynQueue(d, stream) {
        WaitingBytes(d, steps[1..], stream);
      } else {
        HonestInReach(d, steps[1..], stream);
        BehindNeverRefilled(d, steps[1..]);
        StuckForever(d, steps[1..]);
        StalledHead(Run(d, steps[1..]));
      }
    }
  }

  lemma SlidUncounted(c: Conn, n: nat, repeats: bool, stream: seq<u8>)
    requires Slid(c, n, repeats, stream)
    ensures c.h.synSeen == 0
  {
  }

  lemma SlidDelivers(c: Conn, n: nat, repeats: bool, stream: seq<u8>)
    requires Slid(c, n, repeats, stream)
    ensures Delivered(c.h.accepted, stream, repeats)
  {
    hide Slid;
    SlidBytes(c, n, repeats, stream);
    if !(c.h.accepted <= stream) { assert SentTwice(c.h.accepted, n, stream); }
  }

  /** For every run of an honest app whose SYN carries data: what the server got is a prefix of the stream, unless
      the session has slipped with a segment queued at the number where the data of the SYN was taken to end; then
      it may be the data of the SYN and the stream from its last byte on. */
  lemma SynDataFidelity(pkt: InPacket, dns: bool, isn: u32, mss: u16, scale: nat, free: u32, now: int, allowed: bool,
                        steps: seq<Step>, stream: seq<u8>)
    requires pkt.data != [] && pkt.data <= stream
    requires SynHonestRun(NewSession(pkt, dns, isn, mss, scale, free, now, allowed), steps, stream)
    ensures var c := NewSession(pkt, dns, isn, mss, scale, free, now, allowed);
            Delivered(Run(c, steps).h.accepted, stream, RepeatsAfterSlip(c, steps))
    ensures Run(NewSession(pkt, dns, isn, mss, scale, free, now, allowed), steps).h.finSeen == 0
  {
    hide NewSession, Run, SynHonestRun, Stalled, Behind, RepeatsAfterSlip;
    var c := NewSession(pkt, dns, isn, mss, scale, free, now, allowed);
    NewSessionQueue(pkt, dns, isn, mss, scale, free, now, allowed, stream);
    if SynQueue(c, stream) {
      WaitingBytes(c, steps, stream);
    } else {
      HonestInReach(c, steps, stream);
      BehindNeverRefilled(c, steps);
      StuckForever(c, steps);
      StalledHead(Run(c, steps));
    }
    NewSessionLife(pkt, dns, isn, mss, scale, free, now, allowed);
    SessionLife(c, steps);
    NoFin(Run(c, steps));
  }

  lemma NoFin(c: Conn)
    requires LifeInv(c) && (c.h.synSeen == 0 || c.s.forward != [])
    ensures c.h.finSeen == 0
  {
  }

  /** Nor does any ACK of such a session cover a byte that send() has not taken. */
  lemma SynDataAcks(pkt: InPacket, dns: bool, isn: u32, mss: u16, scale: nat, free: u32, now: int, allowed: bool,
                    steps: seq<Step>, stream: seq<u8>)
    requires pkt.data != [] && pkt.data <= stream
    requires SynHonestRun(NewSession(pkt, dns, isn, mss, scale, free, now, allowed), steps, stream)
    ensures var d := Run(NewSession(pkt, dns, isn, mss, scale, free, now, allowed), steps);
            forall i, k: nat | 0 <= i < |d.h.packets| && Covers(d.h.packets[i], k) :: k < |d.h.accepted|
  {
    hide NewSession, Run, SynHonestRun, Fresh;
    SynDataFidelity(pkt, dns, isn, mss, scale, free, now, allowed, steps, stream);
    NewSessionStarts(pkt, dns, isn, mss, scale, free, now, allowed);
    AcksBounded(NewSession(pkt, dns, isn, mss, scale, free, now, true), allowed, steps);
  }

  lemma NewSessionQueue(pkt: InPacket, dns: bool, isn: u32, mss: u16, scale: nat, free: u32, now: int, allowed: bool,
                        stream: seq<u8>)
    requires pkt.data != [] && pkt.data <= stream
    ensures var c := NewSession(pkt, dns, isn, mss, scale, free, now, allowed);
            c.h.accepted == [] && (SynQueue(c, stream) || (Stalled(c) && Behind(c)))
  {
    hide GetReceiveWindow, Scaled, Stalled, Behind, WriteRst;
    var c := NewSession(pkt, dns, isn, mss, scale, free, now, true);
    NewSessionUntaken(pkt, dns, isn, mss, scale, free, now, allowed);
    assert SynQueue(c, stream);
    if !allowed { ListenReset(c); }
  }

  /** After a slip the condition is exact: some run sends more than the data of the SYN, which repeats its last
      byte, if and only if such a segment is queued. */
  lemma RepeatsExactly(c: Conn, stream: seq<u8>)
    requires SynQueue(c, stream) && Slipped(c)
    ensures (exists steps :: SentTwice(Run(c, steps).h.accepted, |c.s.forward[0].data|, stream)) <==> Repeats(c)
  {
    hide Run, Slid, Queued, NonEmpty;
    var n := |c.s.forward[0].data|;
    SlipSlides(c, stream);
    if Repeats(c) {
      var steps := RepeatSent(c, stream);
    } else {
      forall steps ensures !SentTwice(Run(c, steps).h.accepted, n, stream) {
        RunSlid(c, steps, n, false, stream);
        SlidBytes(Run(c, steps), n, false, stream);
      }
    }
  }

  /** A socket that takes both segments. */
  lemma RepeatSent(c: Conn, stream: seq<u8>) returns (steps: seq<Step>)
    requires SynQueue(c, stream) && Slipped(c) && Repeats(c)
    ensures SentTwice(Run(c, steps).h.accepted, |c.s.forward[0].data|, stream)
  {
    hide CheckTcpSocket, Slid, Queued;
    var verdict := DnsMessage.Verdict(false, 0);
    var sends := [Sent(0xFFFF), Sent(0xFFFF)];
    var ev := SocketEvent(false, false, true, 0x2_0000, sends, 0, RecvRetry, verdict, true, true, 0);
    steps := [OnSocket(ev)];
    assert steps[1..] == [];
    assert Run(c, steps) == CheckTcpSocket(c, ev);
    NextUntouched(c.s.forward[1..], c.s.remoteSeq, stream);
    BothTaken(c, ev);
    SlipSlides(c, stream);
    SocketSlid(c, ev, |c.s.forward[0].data|, true, stream);
    SlidBytes(CheckTcpSocket(c, ev), |c.s.forward[0].data|, true, stream);
  }

  lemma NextUntouched(q: seq<Segment>, base: u32, stream: seq<u8>)
    requires Queued(q, base, -1, stream) && q != []
    ensures q[0].sent == 0
  {
    hide Ahead;
    AheadOfItself(base);
    assert Piece(q[0], base, -1, stream);
  }

  lemma BothTaken(c: Conn, ev: SocketEvent)
    requires Waiting(c) && Slipped(c) && Repeats(c) && NonEmpty(c.s.forward) && c.s.forward[1].sent == 0
    requires !ev.err && ev.writable && ev.free == 0x2_0000 && ev.sends == [Sent(0xFFFF), Sent(0xFFFF)]
    ensures |CheckTcpSocket(c, ev).h.accepted| > |c.s.forward[0].data|
  {
    hide Acknowledge, ReadSocket, TakeHead;
    var n, m := |c.s.forward[0].data|, |c.s.forward[1].data|;
    Taken(c, n);
    var d := TakeHead(c, n);
    Taken(d, m);
    var e := TakeHead(d, m);
    assert ev.sends[1..] == [Sent(0xFFFF)] && ev.sends[1..][1..] == [];
    assert Forward(e, ev.free - n - m, [], true) == (e, true);
    assert Forward(d, ev.free - n, [Sent(0xFFFF)], true) == (e, true);
    assert Forward(c, ev.free, ev.sends, false) == (e, true);
    AcknowledgeAccepts(e, true, ev);
    ReadAccepts(Acknowledge(e, true, ev), ev);
  }
}
