/** What every run of one TCP session keeps of the app's stream, when the app numbers it honestly: the
    invariant, and its proof step by step. */
module TcpInvariants {
  import opened Serial
  import opened TcpModel
  import opened TcpLife
  import opened TcpOrder

  // ---------------------------------------------------------------- the forward queue

  /** `seg` carries the bytes of the app's stream that its sequence number says, `off` being the
      stream offset of sequence number `base`. */
  ghost predicate Piece(seg: Segment, base: u32, off: int, stream: seq<u8>) {
    var d := Ahead(seg.start, base);
    && Near(seg, base) && 0 <= off + d && off + d + |seg.data| <= |stream|
    && seg.data == stream[off + d..off + d + |seg.data|]
  }

  ghost predicate Pieces(q: seq<Segment>, base: u32, off: int, stream: seq<u8>) {
    forall i | 0 <= i < |q| :: Piece(q[i], base, off, stream)
  }

  /** In order and faithful to the stream. */
  ghost predicate Queued(q: seq<Segment>, base: u32, off: int, stream: seq<u8>) {
    Ordered(q, base) && Pieces(q, base, off, stream)
  }

  lemma {:induction false} InsertPieces(q: seq<Segment>, seg: Segment, base: u32, off: int, stream: seq<u8>)
    requires Pieces(q, base, off, stream) && Piece(seg, base, off, stream)
    ensures Pieces(Insert(q, seg), base, off, stream)
  {
    hide Ahead, CompareU32;
    if q != [] {
      SameNumber(q[0].start, seg.start);
      InsertPieces(q[1..], seg, base, off, stream);
    }
  }

  /** Inserting keeps the queue in order and faithful, and its head's progress. */
  lemma InsertKeepsOrder(q: seq<Segment>, seg: Segment, base: u32, off: int, stream: seq<u8>)
    requires Queued(q, base, off, stream)
    requires Piece(seg, base, off, stream) && seg.sent == 0 && 0 <= Ahead(seg.start, base)
    ensures Queued(Insert(q, seg), base, off, stream)
    ensures HeadSent(Insert(q, seg)) == HeadSent(q)
  {
    hide Ahead, Insert;
    InsertOrdered(q, seg, base, -0x1_0000);
    InsertPieces(q, seg, base, off, stream);
  }

  /** Forwarding the whole head moves `base` to its end and leaves a queue in order and faithful. */
  lemma PopKeepsOrder(q: seq<Segment>, base: u32, off: int, stream: seq<u8>)
    requires Queued(q, base, off, stream) && q != [] && q[0].start == base
    ensures Queued(q[1..], Plus(base, |q[0].data|), off + |q[0].data|, stream)
    ensures HeadSent(q[1..]) == 0
  {
    hide Ahead, Plus, Ordered;
    PopOrdered(q, base);
    forall i | 1 <= i < |q| ensures Piece(q[i], Plus(base, |q[0].data|), off + |q[0].data|, stream) {
      PopShift(q, base, i);
      assert q[1..][i - 1] == q[i];
    }
  }

  // ---------------------------------------------------------------- the invariant

  /** The app: the bytes it has to send, and whether its FINs arrive in order. */
  datatype App = App(stream: seq<u8>, finsInOrder: bool)

  /** The packet acknowledges byte `k` of the app's stream; position 0 is the SYN. */
  predicate Covers(e: Emission, k: nat) {
    e.packet.ackFlag && 1 + k < e.ackPos
  }

  /** The stream offset that `remote_seq` stands for; before the SYN is counted it is the SYN's. */
  function Base(h: History): int {
    h.synSeen + h.forwarded - 1
  }

  /** What send() accepted is a prefix of the stream, and the queue carries on from there. */
  ghost predicate OutboundInv(c: Conn, app: App) {
    var s, h := c.s, c.h;
    && h.synSeen <= 1 && (h.synSeen == 0 ==> h.forwarded == 0)
    && Queued(s.forward, s.remoteSeq, Base(h), app.stream)
    && h.forwarded + HeadSent(s.forward) <= |app.stream|
    && h.accepted == app.stream[..h.forwarded + HeadSent(s.forward)]
  }

  /** The FIN the app sent lies at the end of its stream, with nothing missing before it. */
  ghost predicate FinInv(c: Conn, app: App) {
    && (c.h.finSeen == 1 ==> c.h.forwarded == |app.stream|)
    && (c.s.state == CloseWait ==> StreamComplete(c, app))
  }

  /** What is forwarded and queued reaches to the end of the stream. */
  ghost predicate StreamComplete(c: Conn, app: App) {
    if c.s.forward == [] then c.h.forwarded == |app.stream|
    else
      var last := c.s.forward[|c.s.forward| - 1];
      c.h.forwarded + Ahead(last.start, c.s.remoteSeq) + |last.data| == |app.stream|
  }

  ghost predicate Inv(c: Conn, app: App, owed: bool := false) {
    && LifeInv(c, owed)
    && OutboundInv(c, app)
    && (app.finsInOrder ==> FinInv(c, app))
  }

  // ---------------------------------------------------------------- what is asked of the app

  /** The stream offset a packet's data starts at, and of its FIN, taken nearest to `remote_seq`. */
  function OffsetOf(c: Conn, seqNo: u32): int {
    Base(c.h) + Ahead(seqNo, c.s.remoteSeq)
  }

  /** A packet of an app that numbers and retransmits one stream: data that may be queued lies at a serial
      distance the comparison can handle and, unless it is already forwarded, equals the stream where its
      number says; nothing has the number of the SYN. */
  ghost predicate Honest(c: Conn, pkt: InPacket, app: App) {
    pkt.data != [] && (c.s.state == Listen || c.s.state == SynRecv || c.s.state == Established) ==>
      && -0x7FFF_FFFF < Ahead(pkt.seqNo, c.s.remoteSeq) < MAX_AHEAD
      && (0 <= Ahead(pkt.seqNo, c.s.remoteSeq) ==>
            && 0 <= OffsetOf(c, pkt.seqNo) <= OffsetOf(c, pkt.seqNo) + |pkt.data| <= |app.stream|
            && pkt.data == app.stream[OffsetOf(c, pkt.seqNo)..OffsetOf(c, pkt.seqNo) + |pkt.data|])
  }

  /** Where the data held so far ends: after the last queued segment, or at `remote_seq`. */
  function QueueEnd(s: Tcp): u32 {
    if s.forward == [] then s.remoteSeq
    else Plus(s.forward[|s.forward| - 1].start, |s.forward[|s.forward| - 1].data|)
  }

  /** A FIN stands right after the last byte of the app's stream. */
  ghost predicate HonestFin(c: Conn, pkt: InPacket, app: App) {
    pkt.fin ==>
      && -0x7FFF_FFFF < Ahead(pkt.seqNo, c.s.remoteSeq) < MAX_AHEAD
      && OffsetOf(c, pkt.seqNo) + |pkt.data| == |app.stream|
  }

  /** The FIN is one that `handle_tcp` acts on. */
  predicate TakesFin(s: Tcp, pkt: InPacket) {
    && pkt.fin && !pkt.rst && !pkt.syn && !pkt.urg
    && (!pkt.ack || pkt.ackNo == s.localSeq)
    && (s.state == Established || (s.state == FinWait1 && pkt.data == []))
  }

  /** The FIN follows directly on what has been queued, its own data included. */
  predicate InOrderFin(c: Conn, pkt: InPacket) {
    QueueEnd(if pkt.data != [] then QueueTcp(c, pkt).s else c.s) == Plus(pkt.seqNo, |pkt.data|)
  }

  ghost predicate Allowed(c: Conn, step: Step, app: App) {
    step.FromApp? ==>
      && Honest(c, step.pkt, app)
      && (app.finsInOrder && TakesFin(c.s, step.pkt) ==> HonestFin(c, step.pkt, app) && InOrderFin(c, step.pkt))
  }

  // ---------------------------------------------------------------- what most of a step leaves alone

  /** If nothing moved on the side of the server, the invariant is a matter of the life cycle alone. */
  lemma OuterKept(c: Conn, d: Conn, app: App, owed: bool := false)
    requires Inv(c, app, owed) && SameOuter(c, d) && LifeInv(d)
    ensures Inv(d, app)
  {
    hide Queued, Ahead, LifeInv;
  }

  // ---------------------------------------------------------------- counting a SYN or a FIN

  /** Moving over the SYN: what came before the SYN-ACK lies behind it. */
  lemma OutboundConnected(c: Conn, app: App)
    requires OutboundInv(c, app) && c.h.synSeen == 0
    ensures OutboundInv(CountSyn(c), app)
  {
    hide Plus, Queued;
    SynKeepsOrder(c.s.forward, c.s.remoteSeq, app.stream);
  }

  lemma SynKeepsOrder(q: seq<Segment>, base: u32, stream: seq<u8>)
    requires Queued(q, base, -1, stream)
    ensures Queued(q, Plus(base, 1), 0, stream) && HeadSent(q) == 0
  {
    hide Ahead, Plus;
    AheadOfItself(base);
    forall i | 0 <= i < |q| ensures 0 < Ahead(q[i].start, base) && q[i].sent == 0 {
      assert Piece(q[i], base, -1, stream);
    }
    CountOrdered(q, base);
    forall i | 0 <= i < |q| ensures Piece(q[i], Plus(base, 1), 0, stream) {
      assert Piece(q[i], base, -1, stream);
      AheadAfterAdvance(q[i].start, base, 1);
    }
  }

  lemma RstKeepsInv(c: Conn, app: App, owed: bool := false)
    requires Inv(c, app, owed)
    ensures Inv(WriteRst(c), app)
  {
    hide OutboundInv, LifeInv, StreamComplete;
    RstLife(c, owed);
    if c.s.state == Listen {
      Uncounted(c, owed);
      OutboundConnected(c, app);
      CountedReset(c, app);
    } else {
      RstOuter(c);
      OuterKept(c, WriteRst(c), app, owed);
    }
  }

  lemma Uncounted(c: Conn, owed: bool := false)
    requires LifeInv(c, owed) && c.s.state == Listen
    ensures c.h.synSeen == 0 && c.h.finSeen == 0
  {
  }

  lemma CountedReset(c: Conn, app: App)
    requires OutboundInv(CountSyn(c), app) && c.s.state == Listen && c.h.finSeen == 0
    ensures OutboundInv(WriteRst(c), app) && FinInv(WriteRst(c), app)
  {
    hide Queued, Plus, Minus;
  }

  // ---------------------------------------------------------------- packets from the app

  lemma QueueKeepsInv(c: Conn, pkt: InPacket, app: App)
    requires Inv(c, app) && Honest(c, pkt, app) && pkt.data != []
    requires c.s.state == Listen || c.s.state == SynRecv || c.s.state == Established
    ensures Inv(QueueTcp(c, pkt), app)
  {
    CompareFromBase(pkt.seqNo, c.s.remoteSeq, c.s.remoteSeq);
    if CompareU32(pkt.seqNo, c.s.remoteSeq) >= 0 {
      var seg := Segment(pkt.seqNo, pkt.data, 0, pkt.psh);
      InsertKeepsOrder(c.s.forward, seg, c.s.remoteSeq, Base(c.h), app.stream);
    }
  }

  /** In serial arithmetic "the FIN follows the queue" is a statement about stream offsets. */
  lemma FinPlace(c: Conn, pkt: InPacket, app: App)
    requires Inv(c, app) && HonestFin(c, pkt, app) && pkt.fin && c.h.synSeen == 1
    ensures QueueEnd(c.s) == Plus(pkt.seqNo, |pkt.data|) <==>
            StreamComplete(c, app)
  {
    hide LifeInv, Ahead, Plus;
    var s := c.s;
    if s.forward == [] {
      AheadOfItself(s.remoteSeq);
      SameEnd(s.remoteSeq, 0, pkt.seqNo, |pkt.data|, s.remoteSeq);
    } else {
      var last := s.forward[|s.forward| - 1];
      assert Piece(last, s.remoteSeq, Base(c.h), app.stream);
      SameEnd(last.start, |last.data|, pkt.seqNo, |pkt.data|, s.remoteSeq);
    }
  }

  lemma FinKeepsInv(c: Conn, ok: bool, app: App)
    requires Inv(c, app)
    requires c.s.state == Established || c.s.state == FinWait1
    requires app.finsInOrder ==> StreamComplete(c, app)
    ensures Inv(HandleFin(c, ok), app)
  {
    hide LifeInv, OutboundInv, Plus;
    FinLife(c, ok);
    OpenStates(c, app);
    FinOutbound(c, ok, app);
    if app.finsInOrder { FinEnds(c, ok, app); }
  }

  /** The FIN is counted behind an empty queue only, and moves nothing else. */
  lemma FinOutbound(c: Conn, ok: bool, app: App)
    requires OutboundInv(c, app) && (c.s.state == FinWait1 ==> c.s.forward == [])
    ensures OutboundInv(HandleFin(c, ok), app)
  {
    hide Ahead, Plus, Minus;
  }

  lemma FinEnds(c: Conn, ok: bool, app: App)
    requires StreamComplete(c, app) && c.h.finSeen == 0 && (c.s.state == Established || c.s.state == FinWait1)
    requires c.s.state == FinWait1 ==> c.s.forward == []
    ensures FinInv(HandleFin(c, ok), app)
  {
    hide Ahead, Plus, Minus;
  }

  /** An acknowledgement or a reset moves the state and nothing the invariant counts. */
  lemma AckKeepsInv(c: Conn, ackNo: u32, app: App)
    requires Inv(c, app) && c.s.state != Close
    ensures Inv(HandleAck(c, ackNo), app)
    ensures Inv(c.(s := c.s.(acked := ackNo)), app)
    ensures Inv(c.(s := c.s.(state := Closing)), app)
  {
    hide Inv;
    assert LifeInv(c) by { InvLives(c, app); }
    AckLife(c, ackNo);
    ClosingLife(c);
    OuterKept(c, HandleAck(c, ackNo), app);
    OuterKept(c, c.(s := c.s.(acked := ackNo)), app);
    OuterKept(c, c.(s := c.s.(state := Closing)), app);
  }

  lemma InvLives(c: Conn, app: App)
    requires Inv(c, app)
    ensures LifeInv(c)
  {
  }

  lemma FlagsKeepInv(c: Conn, pkt: InPacket, ok: bool, app: App)
    requires Inv(c, app) && c.s.state != Closing && c.s.state != Close
    requires app.finsInOrder && TakesFin(c.s, pkt) ==>
               HonestFin(c, pkt, app) && QueueEnd(c.s) == Plus(pkt.seqNo, |pkt.data|)
    requires c.s.state == FinWait1 ==> pkt.data == []
    requires !pkt.urg
    ensures Inv(HandleFlags(c, pkt, ok), app)
  {
    hide Inv, Ahead, CompareU32, Plus, WriteRst, HandleAck, HonestFin;
    RstKeepsInv(c, app);
    AckKeepsInv(c, pkt.ackNo, app);
    if TakesFin(c.s, pkt) {
      SynCounted(c, app);
      if app.finsInOrder { FinPlace(c, pkt, app); }
      FinKeepsInv(c, ok, app);
    }
  }

  lemma RefreshKeepsInv(c: Conn, pkt: InPacket, now: int, app: App)
    requires Inv(c, app)
    ensures Inv(Refresh(c, pkt, now), app)
  {
    hide OutboundInv, FinInv, Scaled;
    OuterKept(c, Refresh(c, pkt, now), app);
  }

  /** Honesty and the place of the FIN do not depend on what `Refresh` sets. */
  lemma HonestRefresh(c: Conn, pkt: InPacket, now: int, app: App)
    ensures Honest(c, pkt, app) ==> Honest(Refresh(c, pkt, now), pkt, app)
    ensures HonestFin(c, pkt, app) ==> HonestFin(Refresh(c, pkt, now), pkt, app)
  {
    hide Ahead, Scaled;
  }

  lemma HonestQueue(c: Conn, pkt: InPacket, app: App)
    requires HonestFin(c, pkt, app)
    ensures HonestFin(QueueTcp(c, pkt), pkt, app)
  {
    hide Ahead, Insert;
  }

  lemma OpenStates(c: Conn, app: App)
    requires Inv(c, app)
    ensures c.s.state == Established || c.s.state == FinWait1 ==> c.h.finSeen == 0
    ensures c.s.state == FinWait1 || c.s.state == LastAck || c.s.state == Close ==> !c.s.open
    ensures c.s.state == FinWait1 ==> c.s.forward == []
    ensures c.s.state == Established || c.s.state == SynRecv || c.s.state == Listen ==> c.s.open
  {
    hide OutboundInv, FinInv;
  }

  /** Every packet of an honest app, in any order and any number of times, keeps the invariant. */
  lemma PacketKeepsInv(c: Conn, pkt: InPacket, now: int, ok: bool, app: App)
    requires Inv(c, app) && Honest(c, pkt, app)
    requires app.finsInOrder && TakesFin(c.s, pkt) ==> HonestFin(c, pkt, app) && InOrderFin(c, pkt)
    ensures Inv(HandleTcp(c, pkt, now, ok), app)
  {
    hide Inv, Ahead, CompareU32, Plus, Insert, HandleFlags, WriteRst, Scaled, HonestFin, Honest;
    if pkt.urg {
    } else if c.s.state == Closing || c.s.state == Close {
      RstKeepsInv(c, app);
    } else {
      var d := Refresh(c, pkt, now);
      RefreshKeepsInv(c, pkt, now, app);
      HonestRefresh(c, pkt, now, app);
      OpenStates(d, app);
      if pkt.data != [] && (!d.s.open || d.s.state == CloseWait) {
        RstKeepsInv(d, app);
      } else {
        var e := if pkt.data != [] then QueueTcp(d, pkt) else d;
        if pkt.data != [] {
          QueueKeepsInv(d, pkt, app);
          if HonestFin(d, pkt, app) { HonestQueue(d, pkt, app); }
        }
        FlagsKeepInv(e, pkt, ok, app);
      }
    }
  }

  // ---------------------------------------------------------------- socket events

  lemma SliceOfSlice<T>(s: seq<T>, off: nat, n: nat, a: nat, b: nat)
    requires a <= b <= n && off + n <= |s|
    ensures s[off..off + n][a..b] == s[off + a..off + b]
    ensures s[..off + a] + s[off..off + n][a..b] == s[..off + b]
  {
  }

  /** Part of the head: the bytes taken are the next bytes of the stream. */
  lemma PartKept(c: Conn, n: nat, app: App)
    requires OutboundInv(c, app)
    requires c.s.forward != [] && c.s.forward[0].start == c.s.remoteSeq
    requires c.s.forward[0].sent + n < |c.s.forward[0].data|
    ensures OutboundInv(TakeHead(c, n), app)
  {
    hide Plus, Ahead, Queued, TakeHead;
    Taken(c, n);
    var q, base, off := c.s.forward, c.s.remoteSeq, Base(c.h);
    HeadPiece(q, base, off, app.stream);
    PartQueued(q, n, base, off, app.stream);
    SliceOfSlice(app.stream, off, |q[0].data|, q[0].sent, q[0].sent + n);
  }

  lemma HeadPiece(q: seq<Segment>, base: u32, off: int, stream: seq<u8>)
    requires Queued(q, base, off, stream) && q != [] && q[0].start == base
    ensures 0 <= off <= off + |q[0].data| <= |stream| && q[0].data == stream[off..off + |q[0].data|]
  {
    hide Ahead;
    AheadOfItself(base);
    assert Piece(q[0], base, off, stream);
  }

  lemma PartQueued(q: seq<Segment>, n: nat, base: u32, off: int, stream: seq<u8>)
    requires Queued(q, base, off, stream) && q != [] && q[0].start == base && q[0].sent + n < 0x1_0000
    ensures Queued([q[0].(sent := q[0].sent + n)] + q[1..], base, off, stream)
  {
    hide Ahead, Ordered;
    PartOrdered(q, n, base);
    assert Piece(q[0], base, off, stream);
  }

  /** The rest of the head: `remote_seq` moves to its end. */
  lemma WholeKept(c: Conn, n: nat, app: App)
    requires OutboundInv(c, app)
    requires c.s.forward != [] && c.s.forward[0].start == c.s.remoteSeq
    requires c.s.forward[0].sent + n == |c.s.forward[0].data|
    ensures OutboundInv(TakeHead(c, n), app)
  {
    hide Plus, Ahead, Queued, TakeHead;
    Taken(c, n);
    var q, base, off := c.s.forward, c.s.remoteSeq, Base(c.h);
    HeadPiece(q, base, off, app.stream);
    PopKeepsOrder(q, base, off, app.stream);
    SliceOfSlice(app.stream, off, |q[0].data|, q[0].sent, |q[0].data|);
  }

  lemma FinPlaceKept(c: Conn, n: nat, app: App)
    requires OutboundInv(c, app) && FinInv(c, app)
    requires c.s.forward != [] && c.s.forward[0].start == c.s.remoteSeq
    requires c.s.forward[0].sent + n <= |c.s.forward[0].data|
    requires c.h.finSeen == 0
    ensures FinInv(TakeHead(c, n), app)
  {
    hide Plus, Ahead;
    var q, base := c.s.forward, c.s.remoteSeq;
    AheadOfItself(base);
    if |q| > 1 {
      var last := q[|q| - 1];
      assert Piece(last, base, Base(c.h), app.stream);
      AheadIsDistance(last.start, base);
      AheadAfterAdvance(last.start, base, |q[0].data|);
    }
  }

  lemma TakeKeepsInv(c: Conn, n: nat, app: App, owed: bool)
    requires Inv(c, app, owed)
    requires c.s.forward != [] && c.s.forward[0].start == c.s.remoteSeq
    requires c.s.forward[0].sent + n <= |c.s.forward[0].data|
    ensures Inv(TakeHead(c, n), app, true)
  {
    hide Plus, OutboundInv, FinInv;
    if c.s.forward[0].sent + n < |c.s.forward[0].data| {
      PartKept(c, n, app);
    } else {
      WholeKept(c, n, app);
    }
    if app.finsInOrder { FinPlaceKept(c, n, app); }
  }

  /** The forward loop, whatever each send() returns. */
  lemma {:induction false} ForwardKeepsInv(c: Conn, free: nat, sends: seq<SendResult>, fwd: bool, app: App)
    requires Inv(c, app, fwd) && (fwd ==> c.h.finSeen == 0)
    ensures var (d, f) := Forward(c, free, sends, fwd); Inv(d, app, f) && (f ==> d.h.finSeen == 0)
    decreases |sends|
  {
    hide Inv, TakeHead, WriteRst;
    if HeadReady(c.s, free) && sends != [] {
      assert c.h.finSeen == 0 && LifeInv(c, fwd) by { QueueUncounted(c, app, fwd); }
      match sends[0]
      case SendRetry =>
      case SendFailed => RstKeepsInv(c, app, fwd); NotOwing(WriteRst(c), app); RstUncounted(c);
      case Sent(count) =>
        var offered := |c.s.forward[0].data| - c.s.forward[0].sent;
        var n := if count <= offered then count else offered;
        TakeKeepsInv(c, n, app, fwd);
        TakeLife(c, n, fwd);
        if n == offered {
          ForwardKeepsInv(TakeHead(c, n), free - n, sends[1..], true, app);
        }
    }
  }

  lemma QueueUncounted(c: Conn, app: App, owed: bool)
    requires Inv(c, app, owed) && c.s.forward != []
    ensures c.h.finSeen == 0 && LifeInv(c, owed)
  {
    hide OutboundInv, FinInv;
  }

  lemma NotOwing(c: Conn, app: App)
    requires Inv(c, app)
    ensures Inv(c, app, true)
  {
    hide OutboundInv, FinInv;
  }

  lemma RstUncounted(c: Conn)
    ensures WriteRst(c).h.finSeen == c.h.finSeen
  {
    hide Plus, Minus;
  }

  /** The FIN owed by an emptied queue is counted, once, by the ACK that follows. */
  lemma OwedFinKeepsInv(c: Conn, app: App)
    requires Inv(c, app, true) && c.h.finSeen == 0
    requires c.s.forward == [] && c.s.state == CloseWait
    ensures Inv(CountFin(c), app)
  {
    hide Ahead, Plus;
  }

  lemma AcknowledgeKeepsInv(c: Conn, fwd: bool, ev: SocketEvent, app: App)
    requires Inv(c, app, fwd) && c.s.open && (fwd ==> c.h.finSeen == 0)
    ensures Inv(Acknowledge(c, fwd, ev), app)
  {
    hide OutboundInv, FinInv, LifeInv, GetReceiveWindow, Plus, Minus;
    AcknowledgeLife(c, fwd, ev);
    var d := if fwd && c.s.forward == [] && c.s.state == CloseWait then CountFin(c) else c;
    if d != c {
      OwedFinKeepsInv(c, app);
    }
    AcknowledgeOuter(c, fwd, ev);
    if SameOuter(c, Acknowledge(c, fwd, ev)) {
      OuterKept(c, Acknowledge(c, fwd, ev), app, fwd);
    } else {
      OuterKept(d, Acknowledge(c, fwd, ev), app);
    }
  }

  lemma ReadKeepsInv(c: Conn, ev: SocketEvent, app: App)
    requires Inv(c, app)
    ensures Inv(ReadSocket(c, ev), app)
  {
    hide OutboundInv, FinInv, LifeInv, ReadSocket, SameOuter;
    ReadLife(c, ev);
    ReadOuter(c, ev);
    OuterKept(c, ReadSocket(c, ev), app);
  }

  lemma ConnectedKeepsInv(c: Conn, ev: SocketEvent, app: App)
    requires Inv(c, app) && c.s.state == Listen
    ensures Inv(Connected(c, ev), app)
  {
    hide OutboundInv, FinInv, LifeInv;
    Uncounted(c);
    ConnectedLife(c, ev);
    OutboundConnected(c, app);
    CountedConnect(c, ev, app);
  }

  lemma CountedConnect(c: Conn, ev: SocketEvent, app: App)
    requires OutboundInv(CountSyn(c), app) && c.s.state == Listen && c.h.finSeen == 0
    ensures OutboundInv(Connected(c, ev), app) && FinInv(Connected(c, ev), app)
  {
    hide Queued, Plus, Minus;
  }

  lemma SocketKeepsInv(c: Conn, ev: SocketEvent, app: App)
    requires Inv(c, app) && c.s.open
    ensures Inv(CheckTcpSocket(c, ev), app)
  {
    hide Inv, Forward, Acknowledge, ReadSocket, Connected, WriteRst;
    if ev.err {
      TimeKeepsInv(c, ev.now, app);
      RstKeepsInv(c.(s := c.s.(time := ev.now)), app);
    } else if c.s.state == Listen {
      ConnectedKeepsInv(c, ev, app);
    } else {
      ForwardKeepsInv(c, ev.free, ev.sends, false, app);
      ForwardOpen(c, ev.free, ev.sends, app);
      var (d, fwd) := if ev.writable then Forward(c, ev.free, ev.sends, false) else (c, false);
      AcknowledgeKeepsInv(d, fwd, ev, app);
      ReadKeepsInv(Acknowledge(d, fwd, ev), ev, app);
    }
  }

  lemma TimeKeepsInv(c: Conn, now: int, app: App)
    requires Inv(c, app)
    ensures Inv(c.(s := c.s.(time := now)), app)
  {
    hide OutboundInv, FinInv;
    OuterKept(c, c.(s := c.s.(time := now)), app);
  }

  lemma ForwardOpen(c: Conn, free: nat, sends: seq<SendResult>, app: App)
    requires Inv(c, app) && c.s.open
    ensures Forward(c, free, sends, false).0.s.open
  {
    hide LifeInv, OutboundInv, FinInv;
    ForwardLife(c, free, sends, false);
  }

  // ---------------------------------------------------------------- monitoring and ageing

  lemma MonitorKeepsInv(c: Conn, m: MonitorInput, app: App)
    requires Inv(c, app) && c.s.open
    ensures Inv(MonitorTcpSession(c, m).0, app)
  {
    hide OutboundInv, FinInv, LifeInv, MonitorTcpSession, SameOuter;
    MonitorLife(c, m);
    MonitorOuter(c, m);
    OuterKept(c, MonitorTcpSession(c, m).0, app);
  }

  lemma AgeKeepsInv(c: Conn, a: AgeInput, app: App)
    requires Inv(c, app) && a.maxSessions > 0
    ensures Inv(CheckTcpSession(c, a).0, app)
  {
    hide OutboundInv, FinInv, LifeInv, CheckTcpSession, SameOuter;
    AgeLife(c, a);
    AgeOuter(c, a);
    OuterKept(c, CheckTcpSession(c, a).0, app);
  }

  lemma SynCounted(c: Conn, app: App)
    requires Inv(c, app) && (c.s.state == Established || c.s.state == CloseWait || c.s.state == FinWait1)
    ensures c.h.synSeen == 1
  {
    hide OutboundInv, FinInv;
  }

  // ---------------------------------------------------------------- runs

  lemma StepKeepsInv(c: Conn, step: Step, app: App)
    requires Inv(c, app) && Allowed(c, step, app)
    ensures Inv(Apply(c, step), app)
  {
    hide Inv, HandleTcp, CheckTcpSocket, MonitorTcpSession, CheckTcpSession, WriteRst;
    match step
    case FromApp(pkt, now, ok) => PacketKeepsInv(c, pkt, now, ok, app);
    case OnSocket(ev) => if c.s.open { SocketKeepsInv(c, ev, app); }
    case OnMonitor(m) => if c.s.open { MonitorKeepsInv(c, m, app); }
    case OnAge(a) => if a.maxSessions > 0 { AgeKeepsInv(c, a, app); }
    case Disallow => RstKeepsInv(c, app);
  }

  /** Every step is one an honest app and any network, clock and kernel may produce. */
  ghost predicate AllowedRun(c: Conn, steps: seq<Step>, app: App)
    decreases |steps|
  {
    steps == [] || (Allowed(c, steps[0], app) && AllowedRun(Apply(c, steps[0]), steps[1..], app))
  }

  lemma {:induction false} RunKeepsInv(c: Conn, steps: seq<Step>, app: App)
    requires Inv(c, app) && AllowedRun(c, steps, app)
    ensures Inv(Run(c, steps), app)
    decreases |steps|
  {
    hide Inv, Allowed, Apply;
    if steps != [] {
      StepKeepsInv(c, steps[0], app);
      RunKeepsInv(Apply(c, steps[0]), steps[1..], app);
    }
  }

  lemma StartInv(c: Conn, allowed: bool, app: App)
    requires Fresh(c) && c.s.forward == []
    ensures Inv(Start(c, allowed), app)
  {
    hide WriteRst;
    RstKeepsInv(c, app);
  }
}
