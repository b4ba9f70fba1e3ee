/** The main results about one TCP session: what every run from the registration of a SYN comes to, and what
    holds besides when the app numbers one stream honestly and its SYN carries no data. */
module TcpTheorems {
  import opened Serial
  import opened TcpModel
  import opened TcpLife
  import opened TcpNumbers
  import opened TcpOrder
  import opened TcpInvariants

  /** For segments of one stream arriving in any order, any number of times and cut in any way, and for
      every outcome of send(): the bytes the outbound socket took are a prefix of the stream, with no
      gap, no reordering and no duplicate.  FINs may arrive early. */
  lemma OutboundFidelity(c: Conn, allowed: bool, steps: seq<Step>, app: App)
    requires Fresh(c) && c.s.forward == [] && AllowedRun(Start(c, allowed), steps, app)
    ensures Run(Start(c, allowed), steps).h.accepted <= app.stream
  {
    hide Fresh, Start, Run, LifeInv, FinInv;
    StartInv(c, allowed, app);
    RunKeepsInv(Start(c, allowed), steps, app);
  }

  /** In every reachable state, whatever app, server and clock did: `remote_seq` counts the SYN, the bytes of
      completely forwarded segments and the FIN, each flag at most once, and every byte send() took is one of
      those or a sent byte of a segment still queued. */
  lemma RemoteSeqAccounts(c: Conn, allowed: bool, steps: seq<Step>)
    requires Fresh(c)
    ensures var d := Run(Start(c, allowed), steps);
            && d.s.remoteSeq == U32(d.s.remoteStart + d.h.synSeen + d.h.forwarded + d.h.finSeen)
            && d.h.synSeen <= 1 && d.h.finSeen <= 1
            && |d.h.accepted| == d.h.forwarded + SentTotal(d.s.forward)
  {
    hide Fresh, Start, Run, LocalCounts, AllNumbered, U32;
    StartNumbers(c, allowed, steps);
  }

  /** Toward the app, in every reachable state: every packet carries exactly the bytes relayed at the stream
      offset its sequence number stands for, and while the session lives `local_seq` has moved over all of
      them.  What is relayed is what came from the server, byte for byte, except to port 53, where it has the
      same length and the DNS parser may have rewritten a header (`DnsMessage.RewrittenHeaderOnly`). */
  lemma InboundFidelity(c: Conn, allowed: bool, steps: seq<Step>)
    requires Fresh(c)
    ensures var d := Run(Start(c, allowed), steps);
            forall i | 0 <= i < |d.h.packets| ::
              var e := d.h.packets[i];
              && e.packet.seqNo == U32(d.s.localStart + e.seqPos)
              && (e.packet.data != [] ==>
                    e.seqPos >= 1 && e.seqPos - 1 + |e.packet.data| <= |d.h.relayed|
                    && e.packet.data == d.h.relayed[e.seqPos - 1..e.seqPos - 1 + |e.packet.data|])
    ensures var d := Run(Start(c, allowed), steps);
            && d.s.localSeq == U32(d.s.localStart + d.h.synSent + d.h.written + d.h.finSent)
            && d.h.synSent <= 1 && d.h.finSent <= 1
            && |d.h.relayed| == |d.h.read| && (!d.s.dns ==> d.h.relayed == d.h.read)
            && (d.s.state != Closing && d.s.state != Close ==> d.h.written == |d.h.read|)
  {
    hide Fresh, Start, Run, RemoteCounts, U32;
    StartNumbers(c, allowed, steps);
    var d := Run(Start(c, allowed), steps);
    forall i | 0 <= i < |d.h.packets| ensures Numbered(d.h.packets[i], d.h, d.s.localStart, d.s.remoteStart) {
    }
  }

  /** In every reachable state every ACK number is the start plus the position it stands for, and that is no
      further than the SYN, what send() took and the FIN.  So an ACK can cover a byte that was not taken only
      once a FIN has been counted. */
  lemma AcksBounded(c: Conn, allowed: bool, steps: seq<Step>)
    requires Fresh(c)
    ensures var d := Run(Start(c, allowed), steps);
            forall i | 0 <= i < |d.h.packets| && d.h.packets[i].packet.ackFlag ::
              && d.h.packets[i].packet.ackNo == U32(d.s.remoteStart + d.h.packets[i].ackPos)
              && d.h.packets[i].ackPos <= d.h.synSeen + |d.h.accepted| + d.h.finSeen <= 1 + |d.h.accepted| + d.h.finSeen
    ensures var d := Run(Start(c, allowed), steps);
            forall i, k: nat | 0 <= i < |d.h.packets| && Covers(d.h.packets[i], k) ::
              k < |d.h.accepted| + d.h.finSeen
  {
    hide Fresh, Start, Run, LocalCounts, U32;
    StartNumbers(c, allowed, steps);
    var d := Run(Start(c, allowed), steps);
    forall i | 0 <= i < |d.h.packets| ensures Numbered(d.h.packets[i], d.h, d.s.localStart, d.s.remoteStart) {
    }
  }

  /** In every state reached with data that stays within the reach of the comparison, honest or not and data on
      the SYN included, the queue is strictly sorted in serial order and only a head at `remote_seq` is partly
      sent. */
  lemma QueueInOrder(c: Conn, allowed: bool, steps: seq<Step>)
    requires Fresh(c) && InReachRun(Start(c, allowed), steps)
    ensures var d := Run(Start(c, allowed), steps);
            && |d.h.accepted| == d.h.forwarded + HeadSent(d.s.forward)
            && (forall i, j | 0 <= i < j < |d.s.forward| ::
                  CompareU32(d.s.forward[i].start, d.s.forward[j].start) < 0)
            && (forall i | 0 <= i < |d.s.forward| && d.s.forward[i].sent > 0 ::
                  i == 0 && d.s.forward[i].start == d.s.remoteSeq)
  {
    hide Fresh, Start, Run, LifeInv, InReachRun, Ahead, LocalCounts, AllNumbered, U32;
    StartOrdered(c, allowed);
    RunOrdered(Start(c, allowed), steps);
    StartNumbers(c, allowed, steps);
    var d := Run(Start(c, allowed), steps);
    OnlyHeadSent(d.s.forward, d.s.remoteSeq);
    forall i, j | 0 <= i < j < |d.s.forward|
      ensures CompareU32(d.s.forward[i].start, d.s.forward[j].start) < 0
    {
      assert Near(d.s.forward[i], d.s.remoteSeq) && Near(d.s.forward[j], d.s.remoteSeq);
      CompareFromBase(d.s.forward[i].start, d.s.forward[j].start, d.s.remoteSeq);
    }
  }

  lemma OnlyHeadSent(q: seq<Segment>, base: u32)
    requires Ordered(q, base)
    ensures SentTotal(q) == HeadSent(q)
  {
    if q != [] {
      TailOrdered(q, base);
      NothingSent(q[1..]);
    }
  }

  lemma NothingSent(q: seq<Segment>)
    requires Unsent(q)
    ensures SentTotal(q) == 0
  {
    if q != [] { NothingSent(q[1..]); }
  }

  /** No ACK ever written covers a byte of the stream the outbound socket has not taken, when every FIN
      acted on follows what was queued.  `TcpFin.EarlyFinAcksUnsent` shows the need for that. */
  lemma AckSafety(c: Conn, allowed: bool, steps: seq<Step>, app: App)
    requires app.finsInOrder && Fresh(c) && c.s.forward == [] && AllowedRun(Start(c, allowed), steps, app)
    ensures var d := Run(Start(c, allowed), steps);
            forall i, k | 0 <= i < |d.h.packets| && 0 <= k < |app.stream| && Covers(d.h.packets[i], k) ::
              k < |d.h.accepted|
    ensures var d := Run(Start(c, allowed), steps);
            forall i | 0 <= i < |d.h.packets| && d.h.packets[i].packet.ackFlag ::
              d.h.packets[i].packet.ackNo == U32(d.s.remoteStart + d.h.packets[i].ackPos)
  {
    hide Fresh, Start, Run, U32, Covers, AllowedRun;
    AcksBounded(c, allowed, steps);
    RemoteSeqAccounts(c, allowed, steps);
    FinMeansComplete(c, allowed, steps, app);
  }

  /** When both FINs are in, the server has the whole stream: nothing is left behind in the queue. */
  lemma FinMeansComplete(c: Conn, allowed: bool, steps: seq<Step>, app: App)
    requires app.finsInOrder && Fresh(c) && c.s.forward == [] && AllowedRun(Start(c, allowed), steps, app)
    ensures Run(Start(c, allowed), steps).h.finSeen == 1 ==> Run(Start(c, allowed), steps).h.accepted == app.stream
    ensures Run(Start(c, allowed), steps).s.state == LastAck ==> Run(Start(c, allowed), steps).h.accepted == app.stream
  {
    hide Fresh, Start, Run, Ahead;
    StartInv(c, allowed, app);
    RunKeepsInv(Start(c, allowed), steps, app);
  }
}
