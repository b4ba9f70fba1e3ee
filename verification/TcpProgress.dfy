/** Where the forward loop stops. */
module TcpProgress {
  import opened Serial
  import opened TcpModel
  import DnsMessage
  import opened TcpOrder
  import opened TcpStall

  // ---------------------------------------------------------------- draining the queue

  /** Some queued segment holds the byte `k` beyond `base`. */
  ghost predicate Held(q: seq<Segment>, base: u32, k: int) {
    exists i :: 0 <= i < |q| && Holds(q[i], base, k)
  }

  predicate Holds(seg: Segment, base: u32, k: int) {
    Ahead(seg.start, base) <= k < Ahead(seg.start, base) + |seg.data|
  }

  /** No byte is queued twice, and none that is already forwarded. */
  ghost predicate Disjoint(q: seq<Segment>, base: u32) {
    && (forall i | 0 <= i < |q| :: 0 <= Ahead(q[i].start, base))
    && forall i, j | 0 <= i < j < |q| :: Ahead(q[i].start, base) + |q[i].data| <= Ahead(q[j].start, base)
  }

  function TotalLength(q: seq<Segment>): nat {
    if q == [] then 0 else |q[0].data| + TotalLength(q[1..])
  }

  /** Every send() takes all it is offered. */
  ghost predicate AllTaken(sends: seq<SendResult>) {
    forall i | 0 <= i < |sends| :: sends[i].Sent? && sends[i].count >= 0xFFFF
  }

  /** Popping a full head shifts what is held. */
  lemma HeldAfterPop(q: seq<Segment>, base: u32, k: int)
    requires Ordered(q, base) && q != [] && q[0].start == base && 0 <= k
    ensures Held(q, base, k) <==> k < |q[0].data| || Held(q[1..], Plus(base, |q[0].data|), k - |q[0].data|)
    ensures Disjoint(q, base) ==> Disjoint(q[1..], Plus(base, |q[0].data|))
  {
    hide Ordered, Plus, Ahead, Holds, Disjoint;
    var L := |q[0].data|;
    HeadHolds(q[0], base, k);
    if Held(q, base, k) && k >= L {
      var i :| 0 <= i < |q| && Holds(q[i], base, k);
      HoldsShift(q, base, i, k);
      assert q[1..][i - 1] == q[i];
    }
    if Held(q[1..], Plus(base, L), k - L) {
      var i :| 0 <= i < |q[1..]| && Holds(q[1..][i], Plus(base, L), k - L);
      assert q[i + 1] == q[1..][i];
      HoldsShift(q, base, i + 1, k);
    }
    if Disjoint(q, base) { DisjointAfterPop(q, base); }
  }

  lemma HeadHolds(seg: Segment, base: u32, k: int)
    requires seg.start == base && 0 <= k
    ensures Holds(seg, base, k) <==> k < |seg.data|
  {
  }

  lemma HoldsShift(q: seq<Segment>, base: u32, i: nat, k: int)
    requires Ordered(q, base) && q != [] && q[0].start == base && 1 <= i < |q|
    ensures Holds(q[i], base, k) <==> Holds(q[i], Plus(base, |q[0].data|), k - |q[0].data|)
  {
    hide Ordered, Plus, Ahead;
    PopShift(q, base, i);
  }

  lemma DisjointAfterPop(q: seq<Segment>, base: u32)
    requires Ordered(q, base) && q != [] && q[0].start == base && Disjoint(q, base)
    ensures Disjoint(q[1..], Plus(base, |q[0].data|))
  {
    hide Ordered, Plus, Ahead;
    AheadOfItself(base);
    forall i | 1 <= i < |q|
      ensures Ahead(q[i].start, Plus(base, |q[0].data|)) == Ahead(q[i].start, base) - |q[0].data|
    {
      PopShift(q, base, i);
    }
    assert forall i | 0 <= i < |q[1..]| :: q[1..][i] == q[i + 1];
  }

  /** With a socket that takes everything and a buffer large enough, the loop moves `remote_seq` over exactly
      `n` more bytes, all of them held.  The next byte is missing, unless a segment it leaves behind starts
      before `remote_seq`, which takes a clash; an overdrawn head keeps it from starting at all. */
  lemma {:induction false} DrainReachesGap(c: Conn, free: nat, sends: seq<SendResult>, fwd: bool)
    requires Ordered(c.s.forward, c.s.remoteSeq)
    requires AllTaken(sends) && |sends| >= |c.s.forward| && free > TotalLength(c.s.forward)
    ensures var d := Forward(c, free, sends, fwd).0;
            var n := d.h.forwarded - c.h.forwarded;
            && 0 <= n && d.s.remoteSeq == U32(c.s.remoteSeq + n)
            && (forall k | 0 <= k < n :: Held(c.s.forward, c.s.remoteSeq, k))
            && (Held(c.s.forward, c.s.remoteSeq, n) ==> Behind(d) || Overdrawn(d))
            && (!Overdrawn(c) && Disjoint(c.s.forward, c.s.remoteSeq) ==> !Held(c.s.forward, c.s.remoteSeq, n))
            && (Overdrawn(c) ==> d == c)
            && (!Behind(c) && !Overdrawn(c) && Held(c.s.forward, c.s.remoteSeq, n) ==>
                  Clash(c.s.forward, c.s.remoteSeq))
    decreases |sends|
  {
    hide Held, Disjoint, Ordered, Ahead, Plus, U32, Behind, TakeHead, Clash;
    if !Behind(c) && !Overdrawn(c) { DrainStalls(c, free, sends, fwd); }
    var q, base := c.s.forward, c.s.remoteSeq;
    SumBegins(c.s.remoteSeq);
    if HeadReady(c.s, free) {
      var offered := |q[0].data| - q[0].sent;
      var e := TakeHead(c, offered);
      TakeOrdered(c, offered);
      TakenWhole(c, offered);
      DrainReachesGap(e, free - offered, sends[1..], true);
      var d := Forward(e, free - offered, sends[1..], true).0;
      DrainStep(q, base, e.s.remoteSeq, d.h.forwarded - e.h.forwarded);
      SumGoesOn(base, |q[0].data|, d.h.forwarded - e.h.forwarded);
    } else {
      NotReadyMeansGap(c, free);
    }
  }

  lemma SumBegins(base: u32)
    ensures base == U32(base + 0)
  {
  }

  lemma SumGoesOn(base: u32, a: nat, n: nat)
    requires a < M
    ensures U32(Plus(base, a) + n) == U32(base + (a + n))
  {
  }

  /** The whole head forwarded: the next one has nothing sent. */
  lemma TakenWhole(c: Conn, n: nat)
    requires Ordered(c.s.forward, c.s.remoteSeq) && c.s.forward != [] && c.s.forward[0].start == c.s.remoteSeq
    requires c.s.forward[0].sent + n == |c.s.forward[0].data|
    ensures var e := TakeHead(c, n);
            && e.s.forward == c.s.forward[1..] && e.s.remoteSeq == Plus(c.s.remoteSeq, |c.s.forward[0].data|)
            && e.h.forwarded == c.h.forwarded + |c.s.forward[0].data| && !Overdrawn(e)
            && TotalLength(c.s.forward) == |c.s.forward[0].data| + TotalLength(e.s.forward)
  {
    hide Plus;
    NextUnsent(c);
  }

  lemma NextUnsent(c: Conn)
    requires Ordered(c.s.forward, c.s.remoteSeq) && c.s.forward != []
    ensures forall i | 1 <= i < |c.s.forward| :: c.s.forward[i].sent == 0
  {
    hide Near, Ahead;
  }

  lemma DrainStep(q: seq<Segment>, base: u32, base': u32, n: nat)
    requires Ordered(q, base) && q != [] && q[0].start == base && base' == Plus(base, |q[0].data|)
    requires forall k | 0 <= k < n :: Held(q[1..], base', k)
    requires Disjoint(q[1..], base') ==> !Held(q[1..], base', n)
    ensures forall k | 0 <= k < |q[0].data| + n :: Held(q, base, k)
    ensures Held(q, base, |q[0].data| + n) <==> Held(q[1..], base', n)
    ensures Disjoint(q, base) ==> !Held(q, base, |q[0].data| + n)
  {
    hide Held, Disjoint, Ordered, Plus, Ahead;
    var L := |q[0].data|;
    forall k | 0 <= k < L + n
      ensures Held(q, base, k)
    {
      HeldAfterPop(q, base, k);
    }
    HeldAfterPop(q, base, L + n);
  }

  lemma NotReadyMeansGap(c: Conn, free: nat)
    requires Ordered(c.s.forward, c.s.remoteSeq) && !HeadReady(c.s, free) && free > TotalLength(c.s.forward)
    ensures Held(c.s.forward, c.s.remoteSeq, 0) ==> Behind(c) || Overdrawn(c)
    ensures !Overdrawn(c) && Disjoint(c.s.forward, c.s.remoteSeq) ==> !Held(c.s.forward, c.s.remoteSeq, 0)
  {
    hide U32, Ahead;
    if c.s.forward != [] {
      ZeroAhead(c.s.forward[0].start, c.s.remoteSeq);
      assert Near(c.s.forward[0], c.s.remoteSeq);
    }
  }

  // ---------------------------------------------------------------- when a queue stalls

  /** Among the segments that follow on each other from `base` on, one starts before its predecessor ends. */
  predicate Clash(q: seq<Segment>, base: u32) {
    && |q| > 1 && q[0].start == base
    && (Ahead(q[1].start, base) < |q[0].data| || Clash(q[1..], Plus(base, |q[0].data|)))
  }

  /** Popping a head leaves the next segment behind `remote_seq` exactly if the two overlap. */
  lemma BehindAfterPop(c: Conn, n: nat)
    requires Ordered(c.s.forward, c.s.remoteSeq) && c.s.forward != [] && c.s.forward[0].start == c.s.remoteSeq
    requires c.s.forward[0].sent + n == |c.s.forward[0].data|
    ensures Behind(TakeHead(c, n)) <==>
              |c.s.forward| > 1 && Ahead(c.s.forward[1].start, c.s.remoteSeq) < |c.s.forward[0].data|
  {
    hide Ahead, Plus, Ordered;
    if |c.s.forward| > 1 {
      PopShift(c.s.forward, c.s.remoteSeq, 1);
    }
  }

  /** With a socket that takes everything, the loop ends behind a head it will never send exactly if the queue
      clashed before. */
  lemma {:induction false} DrainStalls(c: Conn, free: nat, sends: seq<SendResult>, fwd: bool)
    requires Ordered(c.s.forward, c.s.remoteSeq) && !Behind(c) && !Overdrawn(c)
    requires AllTaken(sends) && |sends| >= |c.s.forward| && free > TotalLength(c.s.forward)
    ensures var d := Forward(c, free, sends, fwd).0;
            && (Behind(d) <==> Clash(c.s.forward, c.s.remoteSeq)) && !Overdrawn(d)
            && d.s.state == c.s.state && d.s.open == c.s.open && Ordered(d.s.forward, d.s.remoteSeq)
            && (d.s.forward == [] || d.s.forward[0].start != d.s.remoteSeq)
    decreases |sends|
  {
    hide Ordered, Ahead, Plus, Behind, TakeHead;
    var q, base := c.s.forward, c.s.remoteSeq;
    if HeadReady(c.s, free) {
      var offered := |q[0].data| - q[0].sent;
      var e := TakeHead(c, offered);
      TakeOrdered(c, offered);
      TakenWhole(c, offered);
      Taken(c, offered);
      BehindAfterPop(c, offered);
      if Behind(e) {
        BehindNotReady(e);
      } else {
        DrainStalls(e, free - offered, sends[1..], true);
      }
    }
  }

  lemma BehindNotReady(c: Conn)
    requires Behind(c)
    ensures c.s.forward != [] && c.s.forward[0].start != c.s.remoteSeq
  {
    AheadOfItself(c.s.remoteSeq);
  }

  /** For every session that takes data, drained as far as it goes: no run ever forwards another byte exactly
      if the queue clashed before. */
  lemma StuckIffClash(c: Conn, free: nat, sends: seq<SendResult>)
    requires Ordered(c.s.forward, c.s.remoteSeq) && !Behind(c) && !Overdrawn(c)
    requires c.s.open && (c.s.state == SynRecv || c.s.state == Established)
    requires AllTaken(sends) && |sends| >= |c.s.forward| && free > TotalLength(c.s.forward)
    ensures var d := Forward(c, free, sends, false).0;
            Clash(c.s.forward, c.s.remoteSeq) <==>
              forall steps | InReachRun(d, steps) :: Run(d, steps).h.accepted == d.h.accepted
  {
    hide Ordered, Behind, Clash, Run, InReachRun, Forward;
    DrainStalls(c, free, sends, false);
    var d := Forward(c, free, sends, false).0;
    if Behind(d) {
      forall steps | InReachRun(d, steps) ensures Run(d, steps).h.accepted == d.h.accepted {
        BehindNeverRefilled(d, steps);
        StuckForever(d, steps);
      }
    } else {
      var steps := NextByteForwarded(d);
    }
  }

  /** A session that is not stalled forwards the byte it waits for. */
  lemma NextByteForwarded(d: Conn) returns (steps: seq<Step>)
    requires Ordered(d.s.forward, d.s.remoteSeq) && !Behind(d)
    requires d.s.forward == [] || d.s.forward[0].start != d.s.remoteSeq
    requires d.s.open && (d.s.state == SynRecv || d.s.state == Established)
    ensures InReachRun(d, steps) && Run(d, steps).h.accepted == d.h.accepted + [0]
  {
    hide Ordered, Behind, HandleTcp, CheckTcpSocket, InReach;
    var pkt := InPacket(d.s.remoteSeq, 0, 0, false, false, false, false, false, false, [0]);
    var ev := SocketEvent(false, false, true, 2, [Sent(1)], 0, RecvRetry, DnsMessage.Verdict(false, 0), true, true, 0);
    steps := [FromApp(pkt, 0, true), OnSocket(ev)];
    var e := HandleTcp(d, pkt, 0, true);
    NextFiled(d, pkt);
    OneTaken(e, ev);
    assert steps[1..] == [OnSocket(ev)] && steps[1..][1..] == [];
    assert Apply(d, steps[0]) == e && Apply(e, steps[1]) == CheckTcpSocket(e, ev);
    assert Run(e, steps[1..]) == CheckTcpSocket(e, ev);
    assert InReachRun(e, steps[1..]) by { EventInReach(e, ev); }
  }

  lemma EventInReach(c: Conn, ev: SocketEvent)
    ensures InReach(c, OnSocket(ev)) && InReachRun(Apply(c, OnSocket(ev)), [])
  {
    hide Apply;
  }

  lemma NextFiled(d: Conn, pkt: InPacket)
    requires Ordered(d.s.forward, d.s.remoteSeq) && !Behind(d)
    requires d.s.forward == [] || d.s.forward[0].start != d.s.remoteSeq
    requires d.s.open && (d.s.state == SynRecv || d.s.state == Established)
    requires pkt == InPacket(d.s.remoteSeq, 0, 0, false, false, false, false, false, false, [0])
    ensures InReach(d, FromApp(pkt, 0, true))
    ensures var e := HandleTcp(d, pkt, 0, true);
            && e.s.forward == [Segment(d.s.remoteSeq, [0], 0, false)] + d.s.forward && e.h.accepted == d.h.accepted
            && e.s.remoteSeq == d.s.remoteSeq && e.s.open && e.s.state == d.s.state
  {
    hide Ahead, CompareU32, Scaled, Behind;
    AheadOfItself(d.s.remoteSeq);
    HeadLater(d);
  }

  lemma HeadLater(d: Conn)
    requires Ordered(d.s.forward, d.s.remoteSeq) && !Behind(d)
    requires d.s.forward == [] || d.s.forward[0].start != d.s.remoteSeq
    ensures CompareU32(d.s.remoteSeq, d.s.remoteSeq) == 0
    ensures d.s.forward != [] ==> CompareU32(d.s.forward[0].start, d.s.remoteSeq) > 0
  {
    if d.s.forward != [] {
      AheadOfItself(d.s.remoteSeq);
      ZeroAhead(d.s.forward[0].start, d.s.remoteSeq);
      assert Near(d.s.forward[0], d.s.remoteSeq);
      CompareFromBase(d.s.forward[0].start, d.s.remoteSeq, d.s.remoteSeq);
    }
  }

  lemma OneTaken(e: Conn, ev: SocketEvent)
    requires !ev.err && ev.writable && ev.free == 2 && ev.sends == [Sent(1)] && e.s.state != Listen
    requires e.s.forward != [] && e.s.forward[0] == Segment(e.s.remoteSeq, [0], 0, false)
    ensures CheckTcpSocket(e, ev).h.accepted == e.h.accepted + [0]
  {
    hide Plus, Acknowledge, ReadSocket;
    var d := TakeHead(e, 1);
    assert Forward(e, ev.free, ev.sends, false) == (d, true) by {
      assert ev.sends[1..] == [];
    }
    AcknowledgeAccepts(d, true, ev);
    ReadAccepts(Acknowledge(d, true, ev), ev);
  }

  lemma ZeroAhead(a: u32, b: u32)
    ensures Ahead(a, b) == 0 <==> a == b
  {
  }
}
