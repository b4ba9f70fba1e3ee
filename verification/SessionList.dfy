/** The session table of session.c as it lies in memory: a linked list whose nodes are pushed in front,
    searched, and unlinked in place. */
module SessionList {
  import opened SessionTable
  import TcpModel
  import Udp

  class Node {
    var session: Session
    var next: Node?

    constructor (session: Session, next: Node?)
      ensures this.session == session && this.next == next
    {
      this.session, this.next := session, next;
    }
  }

  ghost function At(ns: seq<Node>, i: nat): Node? {
    if i < |ns| then ns[i] else null
  }

  ghost predicate NoDuplicates(ns: seq<Node>) {
    forall i, j | 0 <= i < j < |ns| :: ns[i] != ns[j]
  }

  /** The list from `head` on is `ns`. */
  ghost predicate Chain(head: Node?, ns: seq<Node>)
    reads ns`next
  {
    head == At(ns, 0) && forall i | 0 <= i < |ns| :: ns[i].next == At(ns, i + 1)
  }

  ghost function Values(ns: seq<Node>): (t: Table)
    reads ns`session
    ensures |t| == |ns|
  {
    if ns == [] then [] else [ns[0].session] + Values(ns[1..])
  }

  lemma {:induction false} ValuesAt(ns: seq<Node>, i: nat)
    requires i < |ns|
    ensures Values(ns)[i] == ns[i].session
  {
    if i > 0 { ValuesAt(ns[1..], i - 1); }
  }

  lemma {:induction false} ValuesAppend(ns: seq<Node>, n: Node)
    ensures Values(ns + [n]) == Values(ns) + [n.session]
  {
    if ns == [] {
      assert ns + [n] == [n];
      assert Values([n][1..]) == [];
    } else {
      assert (ns + [n])[1..] == ns[1..] + [n];
      ValuesAppend(ns[1..], n);
    }
  }

  lemma {:induction false} ValuesSplit(ns: seq<Node>, k: nat)
    requires k < |ns|
    ensures Values(ns) == Values(ns[..k]) + [ns[k].session] + Values(ns[k + 1..])
  {
    if k == 0 {
      assert ns[..0] == [];
    } else {
      assert ns[..k][1..] == ns[1..][..k - 1] && ns[1..][k - 1 + 1..] == ns[k + 1..];
      ValuesSplit(ns[1..], k - 1);
    }
  }

  /** `struct context`; `nodes` are the nodes of the list. */
  class Context {
    var ngSession: Node?
    ghost var nodes: seq<Node>

    ghost predicate Valid()
      reads this, nodes`next
    {
      Chain(ngSession, nodes) && NoDuplicates(nodes)
    }

    ghost function Contents(): Table
      reads this, nodes`session
    {
      Values(nodes)
    }

    constructor ()
      ensures Valid() && Contents() == []
    {
      ngSession, nodes := null, [];
    }

    /** Registering a session. */
    method Push(session: Session)
      requires Valid()
      modifies this
      ensures Valid() && Contents() == [session] + old(Contents())
      ensures |nodes| > 0 && fresh(nodes[0]) && nodes[1..] == old(nodes)
    {
      var s := new Node(session, ngSession);
      ngSession := s;
      nodes := [s] + nodes;
      assert nodes[1..] == old(nodes);
    }

    /** The search loops; `null` when no session matches. */
    method Search(tcp: bool, key: Key) returns (cur: Node?, ghost i: nat)
      requires Valid()
      ensures i == Find(Contents(), tcp, key)
      ensures cur == At(nodes, Find(Contents(), tcp, key))
    {
      cur, i := ngSession, 0;
      assert nodes[0..] == nodes;
      while cur != null && !(if tcp then IsTcp(cur.session, key) else IsUdp(cur.session, key))
        invariant i <= |nodes| && cur == At(nodes, i)
        invariant Find(Contents(), tcp, key) == i + Find(Values(nodes[i..]), tcp, key)
        decreases |nodes| - i
      {
        assert nodes[i..][1..] == nodes[i + 1..];
        cur := cur.next;
        i := i + 1;
      }
    }

    /** Taking `s` out of the list, `sl` being the node before it. */
    method Unlink(sl: Node?, s: Node, ghost k: nat)
      requires Valid() && k < |nodes| && s == nodes[k] && sl == if k == 0 then null else nodes[k - 1]
      modifies this, (if sl == null then {} else {sl})`next
      ensures Valid() && nodes == Without(old(nodes), k)
    {
      hide NoDuplicates, Without;
      ghost var was := nodes;
      DifferFrom(was, k);
      assert s.next == At(was, k + 1);
      if sl == null {
        ngSession := s.next;
      } else {
        sl.next := s.next;
      }
      nodes := Without(was, k);
      WithoutNoDuplicates(was, k);
      Relinked(ngSession, was, k);
    }

    /** A walk through the list stands at `s`, behind `k` nodes that stay, the last of them `sl`; every
        node of `all` is still in the list or freed. */
    ghost predicate Cursor(sl: Node?, s: Node?, k: nat, freed: seq<Node>, all: seq<Node>)
      reads this, nodes`next
    {
      && Valid() && k <= |nodes| && s == At(nodes, k)
      && sl == (if k == 0 then null else nodes[k - 1])
      && multiset(nodes) + multiset(freed) == multiset(all)
    }

    lemma CursorStart()
      requires Valid()
      ensures Cursor(null, ngSession, 0, [], nodes)
    {
    }

    lemma CursorHere(sl: Node?, s: Node?, k: nat, freed: seq<Node>, all: seq<Node>)
      requires Cursor(sl, s, k, freed, all)
      ensures Valid() && multiset(nodes) + multiset(freed) == multiset(all)
      ensures k <= |nodes| && (s == null <==> k == |nodes|)
      ensures s != null ==> s in all && Values(nodes[k..]) != [] && s.session == Values(nodes[k..])[0]
      ensures sl != null ==> sl in all
    {
      if k < |nodes| {
        FirstValue(nodes, k);
        assert nodes[k] in multiset(nodes);
        assert nodes[k] in multiset(all);
      } else {
        assert nodes[k..] == [];
      }
      if k > 0 {
        assert nodes[k - 1] in multiset(nodes);
        assert nodes[k - 1] in multiset(all);
      }
    }

    /** The node at the cursor leaves the list. */
    method Remove(sl: Node?, s: Node, ghost k: nat, ghost freed: seq<Node>, ghost all: seq<Node>) returns (s': Node?)
      requires Cursor(sl, s, k, freed, all) && k < |nodes|
      modifies this, (if sl == null then {} else {sl})`next
      ensures Cursor(sl, s', k, freed + [s], all) && k <= |nodes|
      ensures nodes[..k] == old(nodes[..k]) && nodes[k..] == old(nodes[k + 1..])
    {
      hide NoDuplicates, Chain;
      ghost var was := nodes;
      ChainAt(ngSession, nodes, k);
      WithoutParts(was, k);
      s' := s.next;
      Unlink(sl, s, k);
    }

    /** It stays. */
    lemma Keep(sl: Node?, s: Node, k: nat, freed: seq<Node>, all: seq<Node>)
      requires Cursor(sl, s, k, freed, all) && k < |nodes|
      ensures Cursor(s, s.next, k + 1, freed, all) && s == nodes[k]
      ensures Values(nodes[..k + 1]) == Values(nodes[..k]) + [s.session]
    {
      hide NoDuplicates;
      assert nodes[..k + 1] == nodes[..k] + [s];
      ValuesAppend(nodes[..k], s);
    }

    /** Storing the checked session of the node at the cursor and, if it is to go, taking the node out. */
    method Replace(sl: Node?, s: Node, ghost k: nat, session: Session, del: bool,
                   ghost freed: seq<Node>, ghost all: seq<Node>)
      returns (sl': Node?, s': Node?, ghost k': nat, ghost freed': seq<Node>)
      requires Cursor(sl, s, k, freed, all) && k < |nodes|
      modifies this, s`session, (if sl == null then {} else {sl})`next
      ensures Cursor(sl', s', k', freed', all) && k' <= |nodes|
      ensures Values(nodes[..k']) == old(Values(nodes[..k])) + (if del then [] else [session])
      ensures Values(nodes[k'..]) == old(Values(nodes[k..]))[1..]
    {
      hide Values, Chain, NoDuplicates;
      FirstValue(nodes, k);
      StoreAt(s, k, session);
      if del {
        s' := Remove(sl, s, k, freed, all);
        sl', k', freed' := sl, k, freed + [s];
      } else {
        Keep(sl, s, k, freed, all);
        sl', s', k', freed' := s, s.next, k + 1, freed;
      }
    }

    method StoreAt(s: Node, ghost k: nat, session: Session)
      requires Valid() && k < |nodes| && s == nodes[k]
      modifies s`session
      ensures s.session == session
      ensures Values(nodes[..k]) == old(Values(nodes[..k])) && Values(nodes[k + 1..]) == old(Values(nodes[k + 1..]))
    {
      s.session := session;
    }

    /** Changing the session of one node in place. */
    method Update(s: Node, ghost k: nat, session: Session)
      requires Valid() && k < |nodes| && s == nodes[k]
      modifies s`session
      ensures Valid() && Contents() == old(Contents())[k := session]
    {
      hide Chain, Values;
      ValuesSplit(nodes, k);
      StoreAt(s, k, session);
      ValuesSplit(nodes, k);
    }

    /** `handle_udp`: the session found is updated in place, a new one is put in front. */
    method HandleUdp(p: TunPacket)
      requires Valid() && p.FromUdp?
      modifies this, nodes
      ensures Valid() && Contents() == SessionTable.HandleUdp(old(Contents()), p)
    {
      hide Udp.HandleUdp, Values, Chain, NoDuplicates, Find;
      var cur, i := Search(false, p.key);
      if cur != null {
        ValuesAt(nodes, i);
        Update(cur, i, UdpSession(p.key, Udp.HandleUdp(cur.session.udp, p.length, p.fate, p.now)));
      } else if p.socketOk {
        Push(UdpSession(p.key, Udp.HandleUdp(Udp.NewSession(p.key.dest == 53, p.now), p.length, p.fate, p.now)));
      }
    }

    method BlockUdp(p: TunPacket)
      requires Valid() && p.FromUdp?
      modifies this
      ensures Valid() && Contents() == SessionTable.BlockUdp(old(Contents()), p)
    {
      Push(UdpSession(p.key, Udp.NewBlocked(p.key.dest == 53, p.now, p.sent, p.received)));
    }

    /** `handle_tcp`, likewise. */
    method HandleTcp(p: TunPacket, allowed: bool)
      requires Valid() && p.FromTcp?
      modifies this, nodes
      ensures Valid() && Contents() == SessionTable.HandleTcp(old(Contents()), p, allowed)
    {
      hide TcpModel.HandleTcp, TcpModel.NewSession, Values, Chain, NoDuplicates, Find;
      var cur, i := Search(true, p.key);
      if cur != null {
        ValuesAt(nodes, i);
        Update(cur, i, TcpSession(p.key, TcpModel.HandleTcp(cur.session.tcp, p.pkt, p.now, p.ok)));
      } else if !p.pkt.urg && p.pkt.syn && p.socketOk {
        var dns := p.key.dest == 53;
        Push(TcpSession(p.key, TcpModel.NewSession(p.pkt, dns, p.isn, p.mss, p.scale, p.free, p.now, allowed)));
      }
    }

    /** The deletion loop of `handle_events`: exactly the sessions whose check says so leave the list and
        are freed, each once; the others stay in order. */
    method CheckSessions(ages: seq<Age>) returns (ghost freed: seq<Node>)
      requires Valid() && |ages| == |nodes| && ValidAges(ages)
      modifies this, nodes
      ensures Valid() && Contents() == Aged(old(Contents()), ages)
      ensures multiset(nodes) + multiset(freed) == multiset(old(nodes))
    {
      hide Check, Checked, Values, Cursor, Valid;
      ghost var v0, all := Contents(), nodes;
      var sl: Node?, s := null, ngSession;
      var i := 0;
      ghost var k: nat := 0;
      freed := [];
      assert nodes[..0] == [] && nodes[0..] == nodes;
      CheckedNone(v0, ages);
      CursorStart();
      while s != null
        invariant Cursor(sl, s, k, freed, all) && k <= |nodes|
        invariant Checked(Values(nodes[..k]), Values(nodes[k..]), v0, ages, i)
        decreases |v0| - i
      {
        CursorHere(sl, s, k, freed, all);
        CheckedStep(Values(nodes[..k]), Values(nodes[k..]), v0, ages, i);
        var (session, del) := Check(s.session, ages[i]);
        sl, s, k, freed := Replace(sl, s, k, session, del, freed, all);
        i := i + 1;
      }
      CursorHere(sl, s, k, freed, all);
      assert nodes[k..] == [];
      CheckedAll(Values(nodes[..k]), Values(nodes[k..]), v0, ages, i);
      assert nodes[..k] == nodes;
    }

    /** The loop of `check_allowed`, which removes blocked sessions. */
    method CheckAllowed(allowed: seq<bool>) returns (ghost freed: seq<Node>)
      requires Valid() && |allowed| == |nodes|
      modifies this, nodes
      ensures Valid() && Contents() == Allowed(old(Contents()), allowed)
      ensures multiset(nodes) + multiset(freed) == multiset(old(nodes))
    {
      hide Disallow, Sifted, Values, Cursor, Valid;
      ghost var v0, all := Contents(), nodes;
      var l: Node?, s := null, ngSession;
      var i := 0;
      ghost var k: nat := 0;
      freed := [];
      assert nodes[..0] == [] && nodes[0..] == nodes;
      SiftedNone(v0, allowed);
      CursorStart();
      while s != null
        invariant Cursor(l, s, k, freed, all) && k <= |nodes|
        invariant Sifted(Values(nodes[..k]), Values(nodes[k..]), v0, allowed, i)
        decreases |v0| - i
      {
        CursorHere(l, s, k, freed, all);
        SiftedStep(Values(nodes[..k]), Values(nodes[k..]), v0, allowed, i);
        var (session, del) := Disallow(s.session, allowed[i]);
        l, s, k, freed := Replace(l, s, k, session, del, freed, all);
        i := i + 1;
      }
      CursorHere(l, s, k, freed, all);
      SiftedAll(Values(nodes[..k]), Values(nodes[k..]), v0, allowed, i);
      assert nodes[..k] == nodes;
    }
  }

  lemma ChainAt(head: Node?, ns: seq<Node>, k: nat)
    requires Chain(head, ns)
    ensures head == At(ns, 0)
    ensures k < |ns| ==> ns[k].next == At(ns, k + 1)
  {
  }

  /** The values from a node on. */
  lemma FirstValue(ns: seq<Node>, k: nat)
    requires k < |ns|
    ensures Values(ns[k..]) != [] && Values(ns[k..])[0] == ns[k].session && Values(ns[k..])[1..] == Values(ns[k + 1..])
  {
    ValuesAt(ns[k..], 0);
    assert ns[k..][1..] == ns[k + 1..];
  }

  /** `i` sessions have been visited: `front` is what is left of them, `back` is still to come. */
  ghost predicate Checked(front: Table, back: Table, v: Table, ages: seq<Age>, i: nat)
    requires |ages| == |v| && ValidAges(ages)
  {
    i <= |v| && back == v[i..] && front + Aged(back, ages[i..]) == Aged(v, ages)
  }

  lemma CheckedNone(v: Table, ages: seq<Age>)
    requires |ages| == |v| && ValidAges(ages)
    ensures Checked([], v, v, ages, 0)
  {
    assert v[0..] == v && ages[0..] == ages;
    assert [] + Aged(v, ages) == Aged(v, ages);
  }

  lemma CheckedStep(front: Table, back: Table, v: Table, ages: seq<Age>, i: nat)
    requires |ages| == |v| && ValidAges(ages) && Checked(front, back, v, ages, i) && back != []
    ensures i < |v|
    ensures var (s, del) := Check(back[0], ages[i]);
            Checked(front + (if del then [] else [s]), back[1..], v, ages, i + 1)
  {
    hide Check;
    var (s, del) := Check(back[0], ages[i]);
    var rest := Aged(back[1..], ages[i..][1..]);
    assert v[i..][1..] == v[i + 1..] && ages[i..][1..] == ages[i + 1..];
    assert front + [] == front && front + ([s] + rest) == front + [s] + rest;
  }

  lemma CheckedAll(front: Table, back: Table, v: Table, ages: seq<Age>, i: nat)
    requires |ages| == |v| && ValidAges(ages) && Checked(front, back, v, ages, i) && back == []
    ensures front == Aged(v, ages)
  {
    assert ages[i..] == [] && front + [] == front;
  }

  /** `i` sessions have been visited: `front` is what is left of them, `back` is still to come. */
  ghost predicate Sifted(front: Table, back: Table, v: Table, allowed: seq<bool>, i: nat)
    requires |allowed| == |v|
  {
    i <= |v| && back == v[i..] && front + Allowed(back, allowed[i..]) == Allowed(v, allowed)
  }

  lemma SiftedNone(v: Table, allowed: seq<bool>)
    requires |allowed| == |v|
    ensures Sifted([], v, v, allowed, 0)
  {
    assert v[0..] == v && allowed[0..] == allowed;
    assert [] + Allowed(v, allowed) == Allowed(v, allowed);
  }

  lemma SiftedStep(front: Table, back: Table, v: Table, allowed: seq<bool>, i: nat)
    requires |allowed| == |v| && Sifted(front, back, v, allowed, i) && back != []
    ensures i < |v|
    ensures var (s, del) := Disallow(back[0], allowed[i]);
            Sifted(front + (if del then [] else [s]), back[1..], v, allowed, i + 1)
  {
    hide Disallow;
    var (s, del) := Disallow(back[0], allowed[i]);
    var rest := Allowed(back[1..], allowed[i..][1..]);
    assert v[i..][1..] == v[i + 1..] && allowed[i..][1..] == allowed[i + 1..];
    assert front + [] == front && front + ([s] + rest) == front + [s] + rest;
  }

  lemma SiftedAll(front: Table, back: Table, v: Table, allowed: seq<bool>, i: nat)
    requires |allowed| == |v| && Sifted(front, back, v, allowed, i) && back == []
    ensures front == Allowed(v, allowed)
  {
    assert allowed[i..] == [] && front + [] == front;
  }

  lemma WithoutParts(ns: seq<Node>, k: nat)
    requires k < |ns|
    ensures Without(ns, k)[..k] == ns[..k] && Without(ns, k)[k..] == ns[k + 1..]
    ensures multiset(Without(ns, k)) + multiset([ns[k]]) == multiset(ns)
  {
    assert ns == ns[..k] + ([ns[k]] + ns[k + 1..]);
  }

  ghost function Without(ns: seq<Node>, k: nat): (r: seq<Node>)
    requires k < |ns|
    ensures |r| == |ns| - 1
    ensures forall i | 0 <= i < |r| :: r[i] == ns[if i < k then i else i + 1]
  {
    ns[..k] + ns[k + 1..]
  }

  lemma WithoutNoDuplicates(ns: seq<Node>, k: nat)
    requires NoDuplicates(ns) && k < |ns|
    ensures NoDuplicates(Without(ns, k))
  {
  }

  lemma DifferFrom(ns: seq<Node>, k: nat)
    requires NoDuplicates(ns) && k < |ns|
    ensures forall i | 0 <= i < |ns| && i != k - 1 && k > 0 :: ns[i] != ns[k - 1]
  {
  }

  /** With the link around node `k` set, the others are chained. */
  lemma Relinked(head: Node?, ns: seq<Node>, k: nat)
    requires k < |ns| && forall i | 0 <= i < |ns| && i != k - 1 :: ns[i].next == At(ns, i + 1)
    requires if k == 0 then head == At(ns, 1) else head == ns[0] && ns[k - 1].next == At(ns, k + 1)
    ensures Chain(head, Without(ns, k))
  {
    hide Without;
  }
}
