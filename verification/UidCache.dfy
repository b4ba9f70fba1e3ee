/** `get_uid_sub` of ip.c: the cache in front of the kernel's connection tables. */
module UidCache {
  import opened Serial

  const UID_MAX_AGE := 30000  // milliseconds

  /** A well-formed line of a table: an address of zero or a destination port of zero stands for any. */
  datatype Line = Line(saddr: nat, sport: u16, daddr: nat, dport: u16, uid: int)

  datatype Entry = Entry(six: bool, protocol: u8, line: Line, time: int)

  datatype Query = Query(six: bool, protocol: u8, saddr: nat, sport: u16, daddr: nat, dport: u16)

  /** What reading a file under /proc/net gives: it cannot be opened, or lines up to its end or to the
      first one that is malformed. */
  datatype File = Unreadable | Lines(lines: seq<Line>, malformed: bool)

  const IPPROTO_ICMP: u8 := 1
  const IPPROTO_TCP: u8 := 6
  const IPPROTO_UDP: u8 := 17
  const IPPROTO_ICMPV6: u8 := 58

  predicate HasTable(six: bool, protocol: u8) {
    || (protocol == IPPROTO_ICMP && !six) || (protocol == IPPROTO_ICMPV6 && six)
    || protocol == IPPROTO_TCP || protocol == IPPROTO_UDP
  }

  predicate Matches(l: Line, q: Query) {
    && l.sport == q.sport && (l.dport == q.dport || l.dport == 0)
    && (l.saddr == q.saddr || l.saddr == 0) && (l.daddr == q.daddr || l.daddr == 0)
  }

  predicate Expired(e: Entry, now: int) {
    now - e.time > UID_MAX_AGE
  }

  predicate Hits(e: Entry, q: Query, now: int) {
    !Expired(e, now) && e.six == q.six && e.protocol == q.protocol && Matches(e.line, q)
  }

  // ---------------------------------------------------------------- the specification

  /** The first entry that answers the query, or `|cache|`. */
  function FirstHit(cache: seq<Entry>, q: Query, now: int): (i: nat)
    ensures i <= |cache| && (i < |cache| ==> Hits(cache[i], q, now))
    ensures forall j | 0 <= j < i :: !Hits(cache[j], q, now)
  {
    if cache == [] || Hits(cache[0], q, now) then 0 else 1 + FirstHit(cache[1..], q, now)
  }

  /** A scan of all lines: the uid of the last match, `uid` if there is none. */
  function Scan(lines: seq<Line>, q: Query, uid: int): int
  {
    if lines == [] then uid else Scan(lines[1..], q, if Matches(lines[0], q) then lines[0].uid else uid)
  }

  /** The first expired entry from `c` on, or `|cache|`. */
  function FirstExpired(cache: seq<Entry>, c: nat, now: int): (i: nat)
    requires c <= |cache|
    ensures c <= i <= |cache| && (i < |cache| ==> Expired(cache[i], now))
    ensures forall j | c <= j < i :: !Expired(cache[j], now)
    decreases |cache| - c
  {
    if c == |cache| || Expired(cache[c], now) then c else FirstExpired(cache, c + 1, now)
  }

  function Put(cache: seq<Entry>, c: nat, e: Entry): (r: seq<Entry>)
    requires c <= |cache|
    ensures c < |r| && r[c] == e
  {
    if c == |cache| then cache + [e] else cache[c := e]
  }

  /** The cache after the lines have been stored, the slots from `c` on not yet looked at. */
  function Fill(cache: seq<Entry>, c: nat, lines: seq<Line>, q: Query, now: int): seq<Entry>
    requires c <= |cache|
    decreases |lines|
  {
    if lines == [] then cache
    else
      var i := FirstExpired(cache, c, now);
      Fill(Put(cache, i, Entry(q.six, q.protocol, lines[0], now)), i, lines[1..], q, now)
  }

  /** The uid returned and the cache left behind. */
  function GetUid(cache: seq<Entry>, q: Query, now: int, file: File): (int, seq<Entry>) {
    var i := FirstHit(cache, q, now);
    if i < |cache| then (cache[i].line.uid, cache)
    else if !HasTable(q.six, q.protocol) then (-1, cache)
    else if file.Unreadable? then (-2, cache)
    else (if file.malformed then -2 else Scan(file.lines, q, -1), Fill(cache, 0, file.lines, q, now))
  }

  /** A line is a socket bound to an address and a port and connected to others, where zero stands for any address of
      either side and any port of the other side; it owns the packets of its connections. */
  ghost predicate Owns(l: Line, q: Query) {
    exists saddr: nat, daddr: nat, dport: u16 ::
      && (l.saddr > 0 ==> saddr == l.saddr) && (l.daddr > 0 ==> daddr == l.daddr) && (l.dport > 0 ==> dport == l.dport)
      && q == Query(q.six, q.protocol, saddr, l.sport, daddr, dport)
  }

  lemma MatchesOwned(l: Line, q: Query)
    ensures Matches(l, q) <==> Owns(l, q)
  {
    if Matches(l, q) { assert q == Query(q.six, q.protocol, q.saddr, l.sport, q.daddr, q.dport); }
  }

  /** TCP and UDP have tables for both versions, ICMP for version 4 and ICMPv6 for version 6; nothing else has. */
  lemma TablesThereAre(six: bool, protocol: u8)
    ensures HasTable(six, protocol) <==> protocol == 6 || protocol == 17 || protocol == if six then 58 else 1
  {
  }

  /** An entry answers for 30 seconds the packets its line owns, in its version and protocol. */
  lemma HitsExactly(e: Entry, q: Query, now: int)
    ensures Hits(e, q, now) <==>
              now <= e.time + 30000 && e.six == q.six && e.protocol == q.protocol && Owns(e.line, q)
  {
    hide Owns, Matches;
    MatchesOwned(e.line, q);
  }

  /** What is answered when the cache has nothing: -1 without a table, -2 if it cannot be read to its end, else the uid
      of the last line that owns the packet, or -1. */
  lemma AnswerWithoutHit(cache: seq<Entry>, q: Query, now: int, file: File)
    requires FirstHit(cache, q, now) == |cache|
    ensures var (uid, _) := GetUid(cache, q, now, file);
            && (!HasTable(q.six, q.protocol) ==> uid == -1)
            && (HasTable(q.six, q.protocol) && (file.Unreadable? || file.malformed) ==> uid == -2)
            && (HasTable(q.six, q.protocol) && file.Lines? && !file.malformed ==> LastOwner(file.lines, q, uid))
  {
    hide Matches, HasTable, Fill, Owns;
    if file.Lines? { ScanIsLast(file.lines, q, -1); }
  }

  ghost predicate LastOwner(lines: seq<Line>, q: Query, uid: int) {
    || (uid == -1 && forall i | 0 <= i < |lines| :: !Owns(lines[i], q))
    || exists i :: 0 <= i < |lines| && LastAt(lines, q, i) && lines[i].uid == uid
  }

  ghost predicate LastAt(lines: seq<Line>, q: Query, i: nat)
    requires i < |lines|
  {
    Owns(lines[i], q) && forall j | i < j < |lines| :: !Owns(lines[j], q)
  }

  lemma {:induction false} ScanIsLast(lines: seq<Line>, q: Query, uid: int)
    ensures || (Scan(lines, q, uid) == uid && forall i | 0 <= i < |lines| :: !Owns(lines[i], q))
            || exists i :: 0 <= i < |lines| && LastAt(lines, q, i) && lines[i].uid == Scan(lines, q, uid)
  {
    hide Owns, Matches;
    if lines != [] {
      var l, rest := lines[0], lines[1..];
      MatchesOwned(l, q);
      ScanIsLast(rest, q, if Matches(l, q) then l.uid else uid);
      if exists i :: 0 <= i < |rest| && LastAt(rest, q, i) && rest[i].uid == Scan(lines, q, uid) {
        var i :| 0 <= i < |rest| && LastAt(rest, q, i) && rest[i].uid == Scan(lines, q, uid);
        assert forall j | i + 1 < j < |lines| :: lines[j] == rest[j - 1];
        assert LastAt(lines, q, i + 1);
      } else {
        assert forall j | 0 < j < |lines| :: lines[j] == rest[j - 1];
        if Matches(l, q) { assert LastAt(lines, q, 0); }
      }
    }
  }

  // ---------------------------------------------------------------- the loops

  class Cache {
    var cache: seq<Entry>

    constructor ()
      ensures cache == []
    {
      cache := [];
    }

    /** `get_uid_sub`. */
    method GetUidSub(q: Query, now: int, file: File) returns (uid: int)
      modifies this
      ensures (uid, cache) == GetUid(old(cache), q, now, file)
    {
      hide Hits, Matches, Expired;
      for i := 0 to |cache|
        invariant FirstHit(cache, q, now) == i + FirstHit(cache[i..], q, now)
      {
        assert cache[i..][1..] == cache[i + 1..];
        if Hits(cache[i], q, now) {
          return cache[i].line.uid;
        }
      }
      if !HasTable(q.six, q.protocol) {
        return -1;
      }
      if file.Unreadable? {
        return -2;
      }
      uid := ReadTable(q, now, file.lines);
      if file.malformed {
        return -2;
      }
    }

    method ReadTable(q: Query, now: int, lines: seq<Line>) returns (uid: int)
      modifies this
      ensures uid == Scan(lines, q, -1) && cache == Fill(old(cache), 0, lines, q, now)
    {
      hide Matches, Expired;
      uid := -1;
      var c := 0;
      assert lines[0..] == lines;
      for l := 0 to |lines|
        invariant c <= |cache|
        invariant Scan(lines, q, -1) == Scan(lines[l..], q, uid)
        invariant Fill(old(cache), 0, lines, q, now) == Fill(cache, c, lines[l..], q, now)
      {
        assert lines[l..][0] == lines[l] && lines[l..][1..] == lines[l + 1..];
        if Matches(lines[l], q) {
          uid := lines[l].uid;
        }
        ghost var first := FirstExpired(cache, c, now);
        while c < |cache| && !Expired(cache[c], now)
          invariant c <= |cache| && FirstExpired(cache, c, now) == first
          decreases |cache| - c
        {
          c := c + 1;
        }
        var e := Entry(q.six, q.protocol, lines[l], now);
        if c >= |cache| {
          cache := cache + [e];
        } else {
          cache := cache[c := e];
        }
      }
    }
  }

  // ---------------------------------------------------------------- what filling does

  /** A fill pass overwrites no entry that has not expired. */
  lemma {:induction false} FillKeepsFresh(cache: seq<Entry>, c: nat, lines: seq<Line>, q: Query, now: int, i: nat)
    requires c <= |cache| && i < |cache| && (i < c || !Expired(cache[i], now))
    ensures var r := Fill(cache, c, lines, q, now); i < |r| && r[i] == cache[i]
    decreases |lines|
  {
    if lines != [] {
      var k := FirstExpired(cache, c, now);
      var e := Entry(q.six, q.protocol, lines[0], now);
      FillKeepsFresh(Put(cache, k, e), k, lines[1..], q, now, i);
    }
  }

  /** It stores every line it reads, with the time of the pass. */
  lemma {:induction false} FillStores(cache: seq<Entry>, c: nat, lines: seq<Line>, q: Query, now: int, l: nat)
    requires c <= |cache| && l < |lines|
    ensures Entry(q.six, q.protocol, lines[l], now) in Fill(cache, c, lines, q, now)
    decreases |lines|
  {
    var k := FirstExpired(cache, c, now);
    var e := Entry(q.six, q.protocol, lines[0], now);
    if l == 0 {
      FillKeepsFresh(Put(cache, k, e), k, lines[1..], q, now, k);
    } else {
      assert lines[l] == lines[1..][l - 1];
      FillStores(Put(cache, k, e), k, lines[1..], q, now, l - 1);
    }
  }

  /** And it brings in nothing else. */
  lemma {:induction false} FillOrigin(cache: seq<Entry>, c: nat, lines: seq<Line>, q: Query, now: int, e: Entry)
    requires c <= |cache| && e in Fill(cache, c, lines, q, now)
    ensures e in cache || (e.line in lines && e == Entry(q.six, q.protocol, e.line, now))
    decreases |lines|
  {
    if lines != [] {
      var k := FirstExpired(cache, c, now);
      FillOrigin(Put(cache, k, Entry(q.six, q.protocol, lines[0], now)), k, lines[1..], q, now, e);
    }
  }

  // ---------------------------------------------------------------- the cache refines the scan

  /** The kernel's tables while they do not change. */
  type Tables = (bool, u8) -> seq<Line>

  function FileOf(tables: Tables, q: Query): File {
    Lines(tables(q.six, q.protocol), false)
  }

  /** What the query gets without a cache. */
  function FullScan(tables: Tables, q: Query): int {
    if HasTable(q.six, q.protocol) then Scan(tables(q.six, q.protocol), q, -1) else -1
  }

  /** Every entry is a line of its table. */
  ghost predicate FromTables(cache: seq<Entry>, tables: Tables) {
    forall i | 0 <= i < |cache| ::
      HasTable(cache[i].six, cache[i].protocol) && cache[i].line in tables(cache[i].six, cache[i].protocol)
  }

  /** All lines that match the query carry one uid. */
  ghost predicate OneUid(tables: Tables, q: Query) {
    forall l, m | l in tables(q.six, q.protocol) && m in tables(q.six, q.protocol) ::
      Matches(l, q) && Matches(m, q) ==> l.uid == m.uid
  }

  lemma {:induction false} ScanFinds(lines: seq<Line>, q: Query, uid: int, other: int)
    requires forall l | l in lines && Matches(l, q) :: l.uid == uid
    ensures Scan(lines, q, uid) == uid
    ensures (exists l | l in lines :: Matches(l, q)) ==> Scan(lines, q, other) == uid
    decreases |lines|
  {
    hide Matches;
    if lines != [] {
      assert forall l | l in lines[1..] :: l in lines;
      assert lines[0] in lines;
      ScanFinds(lines[1..], q, uid, other);
      if !Matches(lines[0], q) && exists l | l in lines :: Matches(l, q) {
        var l :| l in lines && Matches(l, q);
        assert l in lines[1..];
      }
    }
  }

  /** One lookup: it keeps the cache true to the tables and answers as a scan would. */
  lemma LookupIsScan(cache: seq<Entry>, tables: Tables, q: Query, now: int)
    requires FromTables(cache, tables)
    ensures var (uid, r) := GetUid(cache, q, now, FileOf(tables, q));
            FromTables(r, tables) && (OneUid(tables, q) ==> uid == FullScan(tables, q))
  {
    hide Matches, Expired;
    var lines := tables(q.six, q.protocol);
    var i := FirstHit(cache, q, now);
    if i < |cache| {
      var l := cache[i].line;
      assert l in lines && Matches(l, q);
      if OneUid(tables, q) { ScanFinds(lines, q, l.uid, -1); }
    } else if HasTable(q.six, q.protocol) {
      var r := Fill(cache, 0, lines, q, now);
      forall k | 0 <= k < |r|
        ensures HasTable(r[k].six, r[k].protocol) && r[k].line in tables(r[k].six, r[k].protocol)
      {
        FillOrigin(cache, 0, lines, q, now, r[k]);
      }
    }
  }

  /** The answers to a list of lookups at the times given. */
  function Answers(cache: seq<Entry>, tables: Tables, calls: seq<(Query, int)>): seq<int>
    decreases |calls|
  {
    if calls == [] then []
    else
      var (uid, r) := GetUid(cache, calls[0].0, calls[0].1, FileOf(tables, calls[0].0));
      [uid] + Answers(r, tables, calls[1..])
  }

  /** Over every run of lookups, at any times, while the tables stay as they are: each query whose matching
      lines carry one uid gets exactly what a full scan gives. */
  lemma {:induction false} CacheRefinesScan(cache: seq<Entry>, tables: Tables, calls: seq<(Query, int)>)
    requires FromTables(cache, tables)
    ensures var a := Answers(cache, tables, calls);
            |a| == |calls|
            && forall i | 0 <= i < |a| :: OneUid(tables, calls[i].0) ==> a[i] == FullScan(tables, calls[i].0)
    decreases |calls|
  {
    hide OneUid, FromTables, FullScan, GetUid;
    if calls != [] {
      LookupIsScan(cache, tables, calls[0].0, calls[0].1);
      var (uid, r) := GetUid(cache, calls[0].0, calls[0].1, FileOf(tables, calls[0].0));
      CacheRefinesScan(r, tables, calls[1..]);
    }
  }

  function FirstMatch(lines: seq<Line>, q: Query): int {
    if lines == [] then -1 else if Matches(lines[0], q) then lines[0].uid else FirstMatch(lines[1..], q)
  }

  /** The entries of a cache do not answer the query. */
  ghost predicate Silent(cache: seq<Entry>, q: Query, now: int) {
    forall i | 0 <= i < |cache| :: !Hits(cache[i], q, now)
  }

  /** New entries keep the order of the lines: over a cache that does not answer, the first hit after a fill
      pass is the first matching line. */
  lemma {:induction false} FillAnswers(cache: seq<Entry>, c: nat, lines: seq<Line>, q: Query, now: int, later: int)
    requires c <= |cache| && later - now <= UID_MAX_AGE && Silent(cache, q, later)
    ensures var r := Fill(cache, c, lines, q, now);
            var i := FirstHit(r, q, later);
            if i < |r| then r[i].line.uid == FirstMatch(lines, q) else forall l | l in lines :: !Matches(l, q)
    decreases |lines|
  {
    hide Matches;
    if lines == [] {
      assert FirstHit(cache, q, later) == |cache|;
    } else {
      var k := FirstExpired(cache, c, now);
      var e := Entry(q.six, q.protocol, lines[0], now);
      var next := Put(cache, k, e);
      if Matches(lines[0], q) {
        forall i | 0 <= i <= k
          ensures i < |Fill(next, k, lines[1..], q, now)| && Fill(next, k, lines[1..], q, now)[i] == next[i]
        {
          FillKeepsFresh(next, k, lines[1..], q, now, i);
        }
        FirstHitIs(Fill(next, k, lines[1..], q, now), q, later, k);
      } else {
        FillAnswers(next, k, lines[1..], q, now, later);
      }
    }
  }

  lemma FirstHitIs(cache: seq<Entry>, q: Query, now: int, k: nat)
    requires k < |cache| && Hits(cache[k], q, now) && forall i | 0 <= i < k :: !Hits(cache[i], q, now)
    ensures FirstHit(cache, q, now) == k
  {
  }

  lemma {:induction false} NoMatch(lines: seq<Line>, q: Query, uid: int)
    requires forall l | l in lines :: !Matches(l, q)
    ensures Scan(lines, q, uid) == uid && FirstMatch(lines, q) == -1
  {
    if lines != [] {
      assert lines[0] in lines;
      assert forall l | l in lines[1..] :: l in lines;
      NoMatch(lines[1..], q, uid);
    }
  }

  /** Without one uid for all matches the cache answers with the first and a scan with the last: from any
      cache that had no answer, a query repeated within 30 seconds is answered as before exactly if the two
      carry one uid. */
  lemma RepeatedQuery(cache: seq<Entry>, tables: Tables, q: Query, now: int, later: int)
    requires HasTable(q.six, q.protocol) && FirstHit(cache, q, now) == |cache| && 0 <= later - now <= 30000
    ensures var (uid, filled) := GetUid(cache, q, now, FileOf(tables, q));
            var (again, _) := GetUid(filled, q, later, FileOf(tables, q));
            && uid == FullScan(tables, q)
            && (again == uid <==> FirstMatch(tables(q.six, q.protocol), q) == FullScan(tables, q))
  {
    hide Matches, Fill, FirstHit;
    var lines := tables(q.six, q.protocol);
    var filled := Fill(cache, 0, lines, q, now);
    FillAnswers(cache, 0, lines, q, now, later);
    if FirstHit(filled, q, later) == |filled| { NoMatch(lines, q, -1); }
  }
}
