# SunProxy: verified model

SunProxy answers an app's TCP, UDP and DNS traffic from behind an Android VPN: packets read from the tun
device are turned into socket calls, and what the sockets give is turned back into packets.  Rules written
by the user decide which server a connection is redirected to.  This project models the parts of it that
carry state or arithmetic and proves what they promise.  `dafny verify dfyconfig.toml` checks all of it.

## How it is built

**One TCP session.** `TcpModel` holds the session record of tcp.c and, as functions on values, what each
entry point does to it: a packet from the app, a socket event, monitoring, ageing. Results of `send`,
`recv`, `write`, `epoll_ctl` and the clock are inputs of the steps. A `History` beside the record keeps the
unbounded byte streams, the packets written and the flags counted; no step reads it. `TcpSession.Session` is
the same record updated in place, with the source's loops; each method is proved equal to the function, and
`TakeStep` says so for all steps at once, so every theorem about runs of the functions is one about this
class. `TcpLife`, `TcpNumbers`, `TcpFlow`, `TcpUsage` and `TcpRelay` prove what every run keeps whatever the
app does, `TcpOrder` what it keeps while data stays within the reach of the sequence comparison, and
`TcpInvariants` what it keeps besides when the app numbers one stream honestly; `TcpTheorems` draws the
conclusions. `TcpWindow` follows the windows the app advertises, `TcpWatch` says what the events watched are
good for, `TcpAge` and `TcpActivity` when a session was last used and what ageing makes of it, and
`TcpConversation` what is answered to what, up to whole conversations. `TcpProgress` is about how far the
forward loop gets, `TcpStall` about queues that never drain, `TcpFin` about where a FIN is filed,
`TcpSynData` and `TcpSynFidelity` about data on a SYN, and `TcpRuns` holds runs of honest apps that go
wrong. `Serial` is 32-bit serial arithmetic.

**The event loop.** `SessionTable` is the list of all sessions and one turn of the loop of session.c:
counting, the deletion loop, a batch of events. `TableRuns` keeps beside the table, for each session in it,
how it was registered and every step it has taken since, and proves that the session is what that run comes
to, so that what is proved of runs can be used for each session. `TableDispatch` says which session a packet
or an event reaches and what the rules and the limit make of it. `SessionList` is the same list as linked
nodes with the source's search, push and unlink loops. `Udp` and `UdpSession` are the UDP session.

**The rule language.** `Rules` has the atoms of a condition as data and their evaluation, `RuleParser` the
recursive-descent parser as functions, as a class that moves `pos`, and as a grammar of derivation trees,
`RuleText` and `RuleSpacing` the tokenizer and the printed form of conditions, `RuleList` and `RuleLayout`
servers, lines and rule lists, `Wildcard` the compilation of host name wildcards to regular expressions,
`Address` the validation and matching of addresses, `AddressText` what their texts denote, `Text` and
`Numerals` the library functions they need.

**Formats.** `Bytes` has big-endian fields, `Checksum` and `TcpPacket` the Internet checksum and the packets
sealed with it, `DnsName` and `DnsMessage` DNS names, queries, hosts answers and responses, `DnsResponse`
encoded messages and what reading them gives, `Sni` the server name of a ClientHello, `UidCache` the cache
in front of the connection tables.

## Where the code falls short of its promise

Each of these is a theorem, with the exact condition where there is one.

- `compare_u32` answers wrongly at distance 2^31 - 1 met without a wrap, and only there
  (`Serial.CompareMeetsRfc1982`, `Serial.CompareAntisymmetric`).
- One ACK number in one state of the counters moves `acked` back (`TcpFlow.AckedOnlyAdvances`).
- Where the counter toward the app wraps, the send window is computed with 0x10000 for 2^32, so an app whose window
  is at most 0x10000 plus what is in flight and the headers is sent nothing until it acknowledges past the wrap
  (`TcpWindow.WrapCloses`).
- The SYN-ACK carries the maximum segment size with its bytes exchanged: 59430 for 9960, 54310 for 9940
  (`TcpPacket.OptionsRead`).
- A FIN is accepted whatever its sequence number.  Taken with nothing queued, it is acknowledged at once, and
  that ACK covers a byte the server never got if and only if the FIN came early; taken with data queued, the
  same holds of the ACK that counts it when the queue has drained (`TcpFin.EarlyFinAcksUnsent`,
  `TcpFin.DeferredFinAcksUnsent`, `TcpFin.FinFiledIffInOrder`).
- Data on a SYN is filed at the number of the SYN itself.  Once the SYN is counted it lies behind `remote_seq`
  and nothing is ever forwarded.  It reaches the server if and only if the session slips from LISTEN into
  CLOSING with its socket open, by a reset or a failing `epoll_ctl`, and an event then sends it
  (`TcpSynData.SynDataForwarded`, `TcpSynData.SlipsExactly`, `TcpSynData.ResetForwardsSynData`).  What then
  arrives is a prefix of the stream, unless a segment is queued at the number of the SYN plus the length of its
  data; if one is, some run sends the last byte of the SYN's data twice (`TcpSynFidelity.SynDataFidelity`,
  `TcpSynFidelity.RepeatsExactly`, `TcpRuns.ByteSentTwice`).
- Queued data can be stuck for ever.  Drained as far as it goes, a session that takes data forwards nothing more
  in any run if and only if, among the segments that follow on each other from `remote_seq` on, one started
  before its predecessor ended (`TcpProgress.StuckIffClash`); an honest app that overlaps its segments gets
  there (`TcpRuns.OverlapStalls`).  The head can also be overdrawn, replaced by fewer bytes than were sent of
  it, under the exact condition of `TcpStall.OverdrawnExactly` and by an honest app too
  (`TcpRuns.ShrinkingStalls`); nothing moves until a long enough segment takes its place
  (`TcpStall.StuckForever`, `TcpStall.RefillRevives`).
- An overdrawn head also makes the receive window too large, under the exact condition of
  `TcpFlow.ReceiveWindowFits`.
- A rule line with an empty server, or with one in brackets and nothing behind them, fails with an index
  error instead of a syntax error (`RuleList.CrashesExactly`).
- A lone `&` or `|` in a condition is passed over (`RuleSpacing.TokensRead`), and tokens behind a complete condition
  are not looked at (`RuleParser.ParserIsGrammar`).
- A part of an IPv4 address may have a sign (`AddressText.OctetsAre`), and a gap in an IPv6 address may not stand for
  one group, nor for two at an end (`AddressText.SpellingAccepted`), as section 2.2 of RFC 4291 allows.
- A hosts answer to a name of 26 labels cannot be read back (`DnsMessage.HostsAnswerReads`); names of 257
  octets and more are lost or cut (`DnsName.NameDecoded`); the offset after a name of labels followed by a
  pointer is wrong (`DnsName.NextOffset`), so that a record with such a name is read two bytes behind its start
  (`DnsResponse.MixedOwnerMisread`).
- The server name is found only if another extension follows it (`Sni.ServerNameFound`), and the extensions
  only if session id, cipher suites and compression methods take at most 206 bytes, since the index behind
  them has 8 bits (`Sni.ExtensionsFound`).  Beyond that the answer is none or what a scan from another place
  gives (`Sni.WrappedIndexMissesExtensions`): for every list of extensions and every name of at most 244 bytes
  there is a hello from which that name is read instead (`Sni.WrongNameRead`).
- The limit of sessions holds for all of them if port 53 is forwarded (`SessionTable.SessionLimit`).  If it is
  not, a packet at the limit adds a session in one case only, a new DNS query that stays unanswered
  (`SessionTable.Port53Bypasses`).
- The uid cache answers with the first matching line, a scan with the last, so the same query asked twice is
  answered alike if and only if the two carry one uid (`UidCache.RepeatedQuery`).

## Model

| member | source | states |
|---|---|---|
| `TcpTheorems.OutboundFidelity` | app/src/main/jni/netguard/tcp.c:466-518 | over every run of a session whose SYN carries no data, segments of one stream arriving in any order, before or after the SYN-ACK, any number of times and cut in any way, the bytes `send` took are a prefix of that stream |
| `TcpTheorems.RemoteSeqAccounts` | app/src/main/jni/netguard/tcp.c:466-546 | in every reachable state of every session, with no assumption on the app, `remote_seq` counts the SYN, the fully forwarded bytes and the FIN, each flag once at most, and every byte `send` took is one of those or a sent byte of a queued segment |
| `TcpTheorems.QueueInOrder` | app/src/main/jni/netguard/tcp.c:977-1036 | over every run of every session whose data stays within the reach of the comparison, honest or not and data on the SYN included, the queue is strictly sorted in serial order and only a head at `remote_seq` is partly sent |
| `TcpTheorems.AcksBounded` | app/src/main/jni/netguard/tcp.c:1250-1262 | in every reachable state of every session, every ACK number is the start plus the position it stands for, no further than the SYN, the bytes `send` took and the FIN, so that until a FIN is counted no ACK covers a byte not taken |
| `TcpTheorems.AckSafety` | app/src/main/jni/netguard/tcp.c:880-896 | when the SYN carries no data and FINs come in order, no ACK ever written covers a byte of the stream that `send` has not taken |
| `TcpTheorems.InboundFidelity` | app/src/main/jni/netguard/tcp.c:590-610 | over every run of every session, every data packet written carries exactly the bytes relayed at the offset its sequence number names, `local_seq` counts what was written, and what is relayed is what `recv` gave, byte for byte, except that the DNS parser may rewrite it at port 53 |
| `TcpRelay.RelayedIsPassed` | app/src/main/jni/netguard/tcp.c:596-610 | over every run the bytes read are those that the reads of the run gave, in order, and what is relayed is each of these reads passed through `parse_dns_response` at port 53 and left alone elsewhere |
| `TcpTheorems.FinMeansComplete` | app/src/main/jni/netguard/tcp.c:540-546 | when the SYN carries no data and FINs come in order, once the app's FIN is counted the server has the whole stream |
| `TcpNumbers.RunNumbers` | app/src/main/jni/netguard/session.c:68-262 | every run keeps both counters, the bytes moved and the numbers of every packet in agreement |
| `TcpOrder.InsertOrdered` | app/src/main/jni/netguard/tcp.c:987-1036 | inserting or replacing any segment within reach keeps the queue strictly sorted and the progress of its head |
| `TcpOrder.RunOrdered` | app/src/main/jni/netguard/session.c:68-262 | every run within reach keeps the queue in order |
| `TcpInvariants.StepKeepsInv` | app/src/main/jni/netguard/tcp.c:623-960 | each of the five kinds of step keeps the queue faithful to the stream of an honest app, what `send` took a prefix of it, and the FIN at its end |
| `TcpInvariants.RunKeepsInv` | app/src/main/jni/netguard/session.c:68-262 | every run of steps keeps it |
| `TcpInvariants.InsertKeepsOrder` | app/src/main/jni/netguard/tcp.c:987-1036 | inserting or replacing keeps the queue strictly sorted, faithful to the stream and its head's progress unchanged |
| `TcpInvariants.PopKeepsOrder` | app/src/main/jni/netguard/tcp.c:504-510 | taking off a complete head leaves a sorted, faithful queue relative to the new `remote_seq` |
| `TcpLife.SessionLife` | app/src/main/jni/netguard/tcp.c:54-115 | with no assumption at all, every run goes down the ranks LISTEN to CLOSE, the socket is open exactly in the states that use it and closed once at most |
| `TcpLife.StepLife` | app/src/main/jni/netguard/tcp.c:569-593 | the same for one step of any kind |
| `TcpLife.NewSessionStarts` | app/src/main/jni/netguard/tcp.c:722-812 | registering a SYN gives a session as the theorems on runs start with: nothing moved or counted, data queued only from the SYN, reset at once if it is not allowed |
| `TcpLife.NewSessionLife` | app/src/main/jni/netguard/tcp.c:722-812 | a newly registered session satisfies the life-cycle invariant, reset at once or not |
| `TcpLife.DeletedOnceClosed` | app/src/main/jni/netguard/tcp.c:86-112 | a session is deleted only in CLOSE, its socket closed exactly once, both counters zero |
| `TcpLife.KeptAfterClose` | app/src/main/jni/netguard/tcp.c:86-115 | from the step that closes a session, over every run, to the step that deletes it, more than TCP_KEEP_TIMEOUT passes |
| `TcpFlow.AckedOnlyAdvances` | app/src/main/jni/netguard/tcp.c:903-955 | for every ACK number, `acked` stays between its old value and `local_seq`, if and only if the triple is not the one that the comparison misjudges |
| `TcpFlow.AckedIsNext` | app/src/main/jni/netguard/tcp.c:903-951 | after the handshake, the flag processing leaves exactly the `acked` that the previous result is about |
| `TcpFlow.SendWindowFits` | app/src/main/jni/netguard/tcp.c:169-183 | a positive grant plus what is in flight plus a header fits the advertised window, by 0x10000 less when the counters have wrapped |
| `TcpFlow.StepFlow` | app/src/main/jni/netguard/tcp.c:554-610 | every data or FIN send leaves in flight at most the send window; a step that receives the one misjudged ACK is excluded |
| `TcpFlow.RunFlow` | app/src/main/jni/netguard/tcp.c:554-610 | over every run without the one misjudged ACK in flight never exceeds the largest send window there was |
| `TcpFlow.NewSessionFlow` | app/src/main/jni/netguard/tcp.c:722-740 | a new session with a window scale of at most 14 starts within these bounds |
| `TcpFlow.ReceiveWindowFits` | app/src/main/jni/netguard/tcp.c:212-235 | for every queue of fewer than 2^32 - 2^16 bytes, a positive receive window plus the bytes pending fits the free socket space, unless and only unless the head was replaced by fewer bytes than were sent of it and the stated inequalities hold; the scaled value fits 16 bits |
| `TcpFlow.ToForwardCounts` | app/src/main/jni/netguard/tcp.c:219-227 | the 32-bit sum over the queue is the number of queued unsent bytes modulo 2^32, with an overdrawn head counted negative |
| `TcpWindow.WindowAdvertised` | app/src/main/jni/netguard/tcp.c:169-183 | over every run from any SYN with a scale of at most 14, whatever the app does, `send_window` is the window field of the last packet that counts times the power of the scale, and without the one misjudged ACK what is in flight never exceeds the largest window the packets advertised |
| `TcpWindow.SentWithinAdvertised` | app/src/main/jni/netguard/tcp.c:552-610 | a step of such a run that sends data or a FIN leaves in flight at most the window advertised last |
| `TcpWindow.StepWindow` | app/src/main/jni/netguard/tcp.c:846-849 | a packet of the app that is not urgent, of a session that has not ended, sets the window to what it advertises; no other step of any kind changes it |
| `TcpWindow.SendWindowExact` | app/src/main/jni/netguard/tcp.c:169-183 | the grant is the advertised window less what is in flight, 40 bytes for every packet unanswered and the next, and 0x10000 when the counters have wrapped, or 0 |
| `TcpWindow.WrapCloses` | app/src/main/jni/netguard/tcp.c:169-183 | with the counters wrapped the grant is 0 if and only if the advertised window is at most what is in flight, the headers and 0x10000 |
| `TcpWindow.ReceiveWindowExact` | app/src/main/jni/netguard/tcp.c:212-235 | unless the head is overdrawn the window offered is the free space, at most 65535 units of the scale, less the bytes pending |
| `TcpWatch.NoWakeupLost` | app/src/main/jni/netguard/tcp.c:117-167 | after monitoring an open session, EPOLLOUT is watched if and only if a writable event with that much room would connect it or come to a `send`, EPOLLIN if and only if a readable event would come to a `recv`, and a recheck is asked for if and only if it relays with its window closed or its queue waits unwatched |
| `TcpWatch.WokenOrRechecked` | app/src/main/jni/netguard/tcp.c:117-167 | so a session that relays is always woken for the server's data or rechecked, and for the app's queued data too |
| `TcpWatch.OthersUnwatched` | app/src/main/jni/netguard/tcp.c:117-167 | in every other state nothing is watched or rechecked and nothing is sent, even with data queued |
| `TcpWatch.WatchRefused` | app/src/main/jni/netguard/tcp.c:156-164 | a refused `epoll_ctl` ends the session if and only if one of the two events changed |
| `TcpWatch.ProbesClosedWindow` | app/src/main/jni/netguard/tcp.c:132-143 | a probe, an ACK of one byte less, is sent if and only if the session relays with a closed window and the last probe is more than 100 ms old; nothing else is sent |
| `TcpAge.TimeoutShrinks` | app/src/main/jni/netguard/tcp.c:39-52 | the timeout is 20 seconds before the connection stands, an hour while it does and 20 after, less the whole percentage of sessions in use, rounded down; none at the limit and beyond |
| `TcpAge.AgeExactly` | app/src/main/jni/netguard/tcp.c:54-112 | a session ends by ageing if and only if it was unused for longer than that or reset before: reset unless it never connected, socket closed once, usage reported in full; others are left as they are |
| `TcpAge.DeletedExactly` | app/src/main/jni/netguard/tcp.c:86-115 | a record is deleted if and only if its session is closed and was closed more than 300 seconds ago |
| `TcpActivity.TimeIsLastUse` | app/src/main/jni/netguard/tcp.c:237-614 | over one step of any kind the time of last use changes if and only if the step uses the session: a packet other than a SYN, an error, the connection, an ACK of forwarded bytes or of a window reopened, a call of `recv` |
| `TcpActivity.UnansweredCounted` | app/src/main/jni/netguard/tcp.c:590-610 | `unconfirmed` is set to 0 by every packet that counts, goes up by one modulo 2^16 with every data packet written and stays otherwise |
| `TcpConversation.WholeConversation` | app/src/main/jni/netguard/tcp.c:237-972 | for all initial numbers, windows and data that fit: an app that connects, sends `a`, is sent `b` and closes gets exactly a SYN-ACK, an ACK, the data, an ACK of its FIN and a FIN, each with its numbers; the server gets `a`, the socket is closed once and both counts are reported |
| `TcpConversation.SynAnswered` | app/src/main/jni/netguard/tcp.c:457-465 | a socket that connects is answered with a SYN-ACK that acknowledges the SYN; nothing else changes |
| `TcpConversation.HandshakeCompleted` | app/src/main/jni/netguard/tcp.c:902-921 | the ACK of the SYN-ACK establishes the connection and is not answered |
| `TcpConversation.DataRelayed` | app/src/main/jni/netguard/tcp.c:552-610 | what the server sends goes to the app in one packet of as many bytes as its window and segment size allow |
| `TcpConversation.DataForwarded` | app/src/main/jni/netguard/tcp.c:466-550 | data in order that the socket takes is acknowledged at once, with its whole length |
| `TcpConversation.FinAnswered` | app/src/main/jni/netguard/tcp.c:880-896 | a FIN with nothing queued is acknowledged at once |
| `TcpConversation.EofAnswered` | app/src/main/jni/netguard/tcp.c:568-594 | the end of the server's stream closes the socket and sends a FIN, or a reset while data of the app is queued |
| `TcpConversation.LastAnswered` | app/src/main/jni/netguard/tcp.c:889-916 | the last ACK, or the app's FIN after the server's, ends the session |
| `TcpConversation.PacketReset` | app/src/main/jni/netguard/tcp.c:850-960 | packets after the end, data that cannot be taken and acknowledgements of what was never sent are answered with exactly one reset, which acknowledges a SYN that has no connection and nothing else |
| `TcpConversation.EventReset` | app/src/main/jni/netguard/tcp.c:267-280 | so are an error of the socket and a session that the rules do not allow any more |
| `TcpConversation.ResetTaken` | app/src/main/jni/netguard/tcp.c:868-873 | a reset of the app ends the session without an answer |
| `TcpConversation.PacketIgnored` | app/src/main/jni/netguard/tcp.c:924-950 | urgent packets, repeated SYNs, keep-alives and acknowledgements seen before are answered with nothing and move no counter |
| `TcpUsage.UsageConserved` | app/src/main/jni/netguard/tcp.c:103-112 | over every run up to deletion, one report at most, naming every byte `send` took and `recv` gave; none only if there were none |
| `TcpUsage.RunUsage` | app/src/main/jni/netguard/tcp.c:501-598 | over every run counters plus reports account for all bytes moved |
| `TcpProgress.DrainReachesGap` | app/src/main/jni/netguard/tcp.c:472-518 | for every queue in order, with a socket that takes everything and room enough, the forward loop moves `remote_seq` over n more bytes, all of them held; the next one is missing unless the queue clashed, and an overdrawn head keeps everything where it is |
| `TcpProgress.DrainStalls` | app/src/main/jni/netguard/tcp.c:472-518 | for every queue in order whose head is neither behind nor overdrawn, that loop ends behind a head it will never send if and only if, among the segments that follow on each other from `remote_seq` on, one starts before its predecessor ends |
| `TcpProgress.BehindAfterPop` | app/src/main/jni/netguard/tcp.c:504-510 | in a queue in order, taking off a head leaves the next segment behind `remote_seq` if and only if the two overlap |
| `TcpProgress.StuckIffClash` | app/src/main/jni/netguard/tcp.c:472-518 | for every session that takes data and whose queue is in order, its head neither behind nor overdrawn, after that loop no run in reach ever forwards another byte if and only if the queue clashed before |
| `TcpStall.StuckForever` | app/src/main/jni/netguard/tcp.c:473-476 | once the head starts before `remote_seq`, or is overdrawn and not replaced by a long enough one, no run whose data stays within the reach of the comparison forwards or acknowledges another byte |
| `TcpStall.BehindNeverRefilled` | app/src/main/jni/netguard/tcp.c:977-1036 | no packet can make up for a head that starts before `remote_seq` |
| `TcpStall.OverdrawnExactly` | app/src/main/jni/netguard/tcp.c:1009-1033 | for every segment in reach the head is overdrawn afterwards if and only if the segment takes its place with fewer bytes than were sent, or goes elsewhere and the head was overdrawn before |
| `TcpStall.RefillRevives` | app/src/main/jni/netguard/tcp.c:1009-1033 | a segment of at least as many bytes as were sent, in the place of an overdrawn head, makes it ready again |
| `TcpRuns.OverlapStalls` | app/src/main/jni/netguard/tcp.c:473-476 | a run of an honest app that overlaps two segments and after which a byte that is held is never sent |
| `TcpRuns.ShrinkingStalls` | app/src/main/jni/netguard/tcp.c:1025-1033 | a run of an honest app that sends less of its stream again and after which nothing moves until it sends as much as before |
| `TcpSynData.SynDataForwarded` | app/src/main/jni/netguard/tcp.c:760-772 | over every run of a session whose SYN carries data, bytes reach the server if and only if some send takes bytes of the head while the session is in CLOSING with its socket open and no SYN counted |
| `TcpSynData.SlipsExactly` | app/src/main/jni/netguard/tcp.c:868-872 | a session in LISTEN with SYN data gets into that state by a reset of the app or a failing `epoll_ctl`, and by no other step |
| `TcpSynData.ResetForwardsSynData` | app/src/main/jni/netguard/tcp.c:868-872 | a reset followed by a socket event that can send forwards the data of the SYN |
| `TcpSynFidelity.SynDataFidelity` | app/src/main/jni/netguard/tcp.c:760-772 | over every run of an honest app whose SYN carries data, what `send` took is a prefix of the stream, unless the session slipped with a segment queued where the data of the SYN was taken to end; then it may be that data and the stream from its last byte on; and no FIN is ever counted |
| `TcpSynFidelity.RepeatsExactly` | app/src/main/jni/netguard/tcp.c:472-518 | after a slip some run sends the last byte of the data of the SYN twice if and only if such a segment is queued |
| `TcpSynFidelity.SynDataAcks` | app/src/main/jni/netguard/tcp.c:760-772 | with an honest app whose SYN carries data, no ACK covers a byte that `send` has not taken |
| `TcpRuns.ByteSentTwice` | app/src/main/jni/netguard/tcp.c:868-872 | a run of such an app in which the server gets a byte twice |
| `TcpFin.FinFiledIffInOrder` | app/src/main/jni/netguard/tcp.c:880-893 | a FIN that is acted on is filed at the end of the stream if and only if it follows directly on what is queued |
| `TcpFin.EarlyFinAcksUnsent` | app/src/main/jni/netguard/tcp.c:880-888 | the ACK of a FIN taken with nothing queued, dropped data of its own included, covers an unsent byte if and only if the FIN came early |
| `TcpFin.DeferredFinAcksUnsent` | app/src/main/jni/netguard/tcp.c:536-546 | for a FIN taken with data queued and every run until the queue drains, the ACK that then counts it covers an unsent byte if and only if the FIN came early |
| `TcpSession.Session.constructor` | app/src/main/jni/netguard/tcp.c:722-812 | registering a session gives the model's new session |
| `TcpSession.Session.Queue` | app/src/main/jni/netguard/tcp.c:977-1036 | the walk and splice in place equal sorted insertion |
| `TcpSession.Session.Flags` | app/src/main/jni/netguard/tcp.c:868-955 | the flag branches in place equal the model's |
| `TcpSession.Session.Handle` | app/src/main/jni/netguard/tcp.c:832-972 | a packet of an existing session in place equals the model's step |
| `TcpSession.Session.ForwardData` | app/src/main/jni/netguard/tcp.c:466-518 | the forward loop in place equals the model's, and its buffer size never underflows |
| `TcpSession.Session.AckForwarded` | app/src/main/jni/netguard/tcp.c:531-550 | the new window and the ACK, with the FIN counted when the queue has drained |
| `TcpSession.Session.Read` | app/src/main/jni/netguard/tcp.c:552-611 | reading the socket, its end of file and its errors in place equal the model's |
| `TcpSession.Session.CheckSocket` | app/src/main/jni/netguard/tcp.c:237-614 | a socket event in place equals the model's step |
| `TcpSession.Session.Monitor` | app/src/main/jni/netguard/tcp.c:117-167 | monitoring in place equals the model's step, result included |
| `TcpSession.Session.CheckSession` | app/src/main/jni/netguard/tcp.c:54-115 | ageing in place equals the model's step, verdict included |
| `TcpSession.Session.SendWindow` | app/src/main/jni/netguard/tcp.c:169-183 | the window computed in 32-bit arithmetic is the model's |
| `TcpSession.Session.ReceiveWindow` | app/src/main/jni/netguard/tcp.c:212-235 | the loop over the queue and the cap give the model's window |
| `TcpSession.Session.TakeStep` | app/src/main/jni/netguard/session.c:68-262 | any step of the event loop on the record equals the model's step, so the theorems on runs hold of the record |
| `Serial.CompareMeetsRfc1982` | app/src/main/jni/netguard/util.c:43-55 | the comparison decides the order of section 3.2 of RFC 1982 wherever that is defined, if and only if the distance is not 2^31 - 1 without a wrap |
| `Serial.CompareAntisymmetric` | app/src/main/jni/netguard/util.c:43-55 | exchanging the arguments changes the sign, if and only if they are not that distance apart |
| `Serial.CompareFromBase` | app/src/main/jni/netguard/util.c:43-55 | within that distance the comparison orders numbers as their distances from a common base |
| `Udp.RunInv` | app/src/main/jni/netguard/udp.c:36-86 | over every run a UDP session goes from active to finishing to closed, its socket open until closed |
| `Udp.UsageConserved` | app/src/main/jni/netguard/udp.c:67-84 | a session is deleted with its socket closed once, both counters zero and one report at most, of all bytes moved each way |
| `Udp.BlockedReportsNothing` | app/src/main/jni/netguard/udp.c:178-224 | a blocked session stays blocked, is never reported and owns no socket, whatever its uninitialised counters hold |
| `UdpSession.EndsExactly` | app/src/main/jni/netguard/udp.c:88-151 | an active session stays active over a step of any kind unless and only unless the step answers a DNS query, fails, ends the stream, or finds it idle or not allowed |
| `UdpSession.RunMoves` | app/src/main/jni/netguard/udp.c:260-394 | over every run the bytes counted are exactly those sent on and those received |
| `UdpSession.AgeExactly` | app/src/main/jni/netguard/udp.c:36-86 | ageing closes a session if and only if it ended or was unused too long, 15 seconds for DNS and 300 otherwise less the share of sessions in use, and deletes it 60 seconds after |
| `UdpSession.UseKept` | app/src/main/jni/netguard/udp.c:88-151 | the time of last use is that of the last datagram tried or event of the socket |
| `Udp.Session.Handle` | app/src/main/jni/netguard/udp.c:260-394 | a datagram of an existing session in place equals the model's step |
| `Udp.Session.CheckSocket` | app/src/main/jni/netguard/udp.c:88-151 | a socket event in place equals the model's step |
| `Udp.Session.Check` | app/src/main/jni/netguard/udp.c:36-86 | ageing in place equals the model's step, verdict included |
| `SessionTable.SessionLimit` | app/src/main/jni/netguard/session.c:74-262 | after any number of turns from the empty table keys are unique, every session obeys its life cycle, and at most maxsessions + 9 sessions are active, UDP sessions to port 53 counted if it is forwarded and not counted if it is not |
| `SessionTable.RunKeepsBound` | app/src/main/jni/netguard/session.c:74-262 | every run of turns keeps that, from any table that has it |
| `SessionTable.TurnKeepsBound` | app/src/main/jni/netguard/session.c:80-168 | one turn, whatever its packets, events and ages, keeps that |
| `SessionTable.PacketValid` | app/src/main/jni/netguard/ip.c:276-377 | a packet keeps TCP and UDP keys unique, adds one active session at most, and none once the limit is reached, UDP to port 53 aside unless it is forwarded |
| `SessionTable.UdpPacketValid` | app/src/main/jni/netguard/udp.c:153-300 | creating, updating and blocking a UDP session keep keys unique |
| `SessionTable.TcpPacketValid` | app/src/main/jni/netguard/tcp.c:638-822 | creating and updating a TCP session keep keys unique |
| `SessionTable.AgedValid` | app/src/main/jni/netguard/session.c:108-161 | the deletion loop keeps keys unique and makes no session active |
| `SessionTable.AllowedValid` | app/src/main/jni/netguard/session.c:286-371 | so does `check_allowed`, and no blocked session is left |
| `SessionTable.Port53Bypasses` | app/src/main/jni/netguard/udp.c:160-161 | at the limit a packet adds an active session, and then exactly one, if and only if it is UDP to port 53, that port is not forwarded, no session has its key, a socket opens and the query is neither answered nor failing to be sent |
| `TableDispatch.ForbiddenNeverConnects` | app/src/main/jni/netguard/ip.c:276-377 | a packet of an app that is not allowed never gets a socket that stays: UDP makes a blocked session without one, a SYN is dropped or, if it names a server, its session is reset at once |
| `TableDispatch.AllowedServed` | app/src/main/jni/netguard/ip.c:276-377 | with room and a socket, an allowed datagram is sent on by a new active session and an allowed SYN registered; other TCP packets without a session change nothing |
| `TableDispatch.EchoServed` | app/src/main/jni/netguard/ip.c:276-377 | with room an allowed echo goes through the first live session of its hosts, or a new one if a socket opens, and stops it if sending fails |
| `TableDispatch.ReachesItsOwn` | app/src/main/jni/netguard/tcp.c:638-648 | in every table with unique keys a packet of a session reaches that session and leaves every other as it was |
| `TableDispatch.EventAt` | app/src/main/jni/netguard/session.c:170-258 | an event changes the session it belongs to and no other |
| `TableDispatch.EventTaken` | app/src/main/jni/netguard/session.c:170-258 | it drives that session by the event handler of its protocol |
| `TableDispatch.NothingNew` | app/src/main/jni/netguard/ip.c:276-377 | at the limit, or without a socket, a packet without a session changes nothing |
| `TableDispatch.AgedKeeps` | app/src/main/jni/netguard/session.c:108-161 | the deletion loop keeps exactly the sessions that their own check does not delete |
| `TableDispatch.DisallowExactly` | app/src/main/jni/netguard/session.c:286-371 | `check_allowed` resets active sessions that are not allowed any more, deletes blocked ones and leaves the rest |
| `TableDispatch.CountIsNumber` | app/src/main/jni/netguard/session.c:68-100 | the counting loop counts the active sessions |
| `TableRuns.ThreadsTold` | app/src/main/jni/netguard/session.c:22-278 | over every life of the table, starts of the event thread with `check_allowed` included, every TCP and UDP session is what its own registration followed by exactly the packets, socket events, monitoring, ageing and resets that reached it comes to |
| `TableRuns.TableNumbers` | app/src/main/jni/netguard/session.c:68-262 | so every TCP session ever in the table has both counters and all its packets numbered right, and its usage reported in full if it is deleted next |
| `TableRuns.TableFidelity` | app/src/main/jni/netguard/session.c:68-262 | for every TCP session ever in the table whose SYN carried no data, and every app honest in the steps that reached it, what `send` took is a prefix of the stream of that app, and with FINs in order no ACK covers a byte not taken |
| `TableRuns.HonestPacket` | app/src/main/jni/netguard/tcp.c:638-648 | after a packet of a known session its app was honest so far if and only if it was before and the packet is one the app may send in the state the table has |
| `TableRuns.ThreadsKeepBound` | app/src/main/jni/netguard/session.c:55-80 | the session limit holds over starts of the event thread too |
| `SessionList.Context.CheckSessions` | app/src/main/jni/netguard/session.c:113-162 | the in-place deletion loop leaves the order-preserving filter of the list, and every old node is either still linked or freed, once |
| `SessionList.Context.CheckAllowed` | app/src/main/jni/netguard/session.c:286-371 | the same for the loop that removes blocked sessions |
| `SessionList.Context.Search` | app/src/main/jni/netguard/tcp.c:638-648 | the search loop ends at the first session with the key, or at null |
| `SessionList.Context.HandleUdp` | app/src/main/jni/netguard/udp.c:240-394 | on the linked list, a datagram updates its session in place or pushes a new one, and leaves the other sessions as they were |
| `SessionList.Context.HandleTcp` | app/src/main/jni/netguard/tcp.c:638-972 | the same for a TCP packet |
| `RuleParser.ParserIsGrammar` | app/src/main/java/io/github/ulysseszh/sunproxy/RedirectRule.kt:180-260 | for every token list the parser stops at q with e if and only if the tokens up to q derive e and the next is neither `&&` nor `\|\|` |
| `RuleParser.Unambiguous` | app/src/main/java/io/github/ulysseszh/sunproxy/RedirectRule.kt:187-218 | a token list derives one expression at most |
| `RuleParser.Parser.ParseAll` | app/src/main/java/io/github/ulysseszh/sunproxy/RedirectRule.kt:180-185 | the parser that moves `pos` terminates and gives the result the grammar theorem is about; no tokens mean true |
| `RuleParser.Parser.Disjunction` | app/src/main/java/io/github/ulysseszh/sunproxy/RedirectRule.kt:187-193 | the loop on `\|\|` builds to the left and stops where the function does |
| `RuleParser.Parser.Condition` | app/src/main/java/io/github/ulysseszh/sunproxy/RedirectRule.kt:240-261 | literals, comparisons and their errors, with the position moved |
| `RuleText.SpacedTokens` | app/src/main/java/io/github/ulysseszh/sunproxy/RedirectRule.kt:342-346 | tokens set apart by spaces come back one by one |
| `RuleSpacing.TokensRead` | app/src/main/java/io/github/ulysseszh/sunproxy/RedirectRule.kt:342-346 | so do tokens with any white space between them, lone `&` and `\|` in it included, or none where they may touch |
| `RuleSpacing.TouchExactly` | app/src/main/java/io/github/ulysseszh/sunproxy/RedirectRule.kt:342-346 | two tokens without space come back if and only if the first is an operator of two characters, a word before an operator, or an operator that makes none of two characters with the next |
| `RuleText.PrintedParses` | app/src/main/java/io/github/ulysseszh/sunproxy/RedirectRule.kt:211-218 | every valid condition, printed with parentheses, parses to itself |
| `RuleList.PrintedRulesDecide` | app/src/main/java/io/github/ulysseszh/sunproxy/RedirectRule.kt:12-24 | for every rule list and packet, compiling the printed text gives rules that answer the server of the first rule whose condition holds in terms of the packet's fields, or none |
| `RuleList.RulesRoundTrip` | app/src/main/java/io/github/ulysseszh/sunproxy/RedirectRule.kt:129-150 | compiling a printed rule list gives the rules back |
| `RuleLayout.LayoutCompiled` | app/src/main/java/io/github/ulysseszh/sunproxy/RedirectRule.kt:129-150 | for lists in any layout (blank space, comments, empty lines, any of the three line ends, servers with and without a condition) compiling gives the rules the lines state, in order, for every packet where there is no condition, or the error of the first bad condition |
| `RuleList.FromLines` | app/src/main/java/io/github/ulysseszh/sunproxy/RedirectRule.kt:135-150 | the loop over the lines gives the rules of all lines with code, or the error of the first bad one |
| `RuleList.EvalMeansHolds` | app/src/main/java/io/github/ulysseszh/sunproxy/RedirectRule.kt:97-123 | evaluation is the Boolean meaning over what each comparison says of the packet: an integer relation on the named port or uid, the protocol, the text of an address or its top bits, the host name as a glob |
| `RuleList.AtomMeans` | app/src/main/java/io/github/ulysseszh/sunproxy/RedirectRule.kt:262-334 | every comparison that is accepted is evaluated to what it means |
| `RuleList.ComparisonAccepted` | app/src/main/java/io/github/ulysseszh/sunproxy/RedirectRule.kt:262-334 | exactly which fields, operators and values are accepted |
| `RuleList.ServerRoundTrip` | app/src/main/java/io/github/ulysseszh/sunproxy/RedirectRule.kt:26-44 | every valid server, printed and read, comes back |
| `RuleList.ServersAreValid` | app/src/main/java/io/github/ulysseszh/sunproxy/Utils.kt:65-133 | what is read is a valid address and a port from 1 to 65535 |
| `RuleList.CrashesExactly` | app/src/main/java/io/github/ulysseszh/sunproxy/Utils.kt:109-129 | reading a server fails with an index error if and only if the text is empty or starts with a bracket and ends with its first closing bracket |
| `Wildcard.WildcardMeaning` | app/src/main/java/io/github/ulysseszh/sunproxy/Utils.kt:248-255 | the regular expression from the four replacements matches a host if and only if the wildcard does as a glob |
| `Wildcard.WildcardAccepted` | app/src/main/java/io/github/ulysseszh/sunproxy/Utils.kt:248-250 | a wildcard is accepted if and only if it is not empty, has no three stars in a row and consists of the characters stated by their codes |
| `Wildcard.CaseIgnored` | app/src/main/java/io/github/ulysseszh/sunproxy/Utils.kt:252-255 | case is ignored for the 26 letters and nothing else |
| `Wildcard.LinesEndAt` | app/src/main/java/io/github/ulysseszh/sunproxy/Utils.kt:252-255 | the five characters that two stars do not cross |
| `Numerals.IntReads` | app/src/main/java/io/github/ulysseszh/sunproxy/RedirectRule.kt:312-332 | a decimal numeral with at most one sign is read as its positional value if and only if that fits 32 bits |
| `Numerals.NumeralReads` | app/src/main/java/io/github/ulysseszh/sunproxy/Utils.kt:180-196 | so is every decimal or hexadecimal numeral, in either case |
| `Numerals.OnlyNumerals` | app/src/main/java/io/github/ulysseszh/sunproxy/RedirectRule.kt:312-332 | and nothing else is |
| `Address.IsIpInRange` | app/src/main/java/io/github/ulysseszh/sunproxy/Utils.kt:234-242 | for all texts, the answer is agreement of the top mask bits of the 32-bit or 128-bit numbers |
| `AddressText.QuadInRange` | app/src/main/java/io/github/ulysseszh/sunproxy/Utils.kt:198-215 | for all quads and bits, quad, slash and bits is a range if and only if there are at most 32; a quad is in it if and only if the quotients of the two base-256 numbers by the size of the range agree |
| `AddressText.GroupsInRange` | app/src/main/java/io/github/ulysseszh/sunproxy/Utils.kt:216-232 | the same for every two accepted spellings of IPv6 addresses, with at most 128 bits |
| `AddressText.OtherVersion` | app/src/main/java/io/github/ulysseszh/sunproxy/Utils.kt:234-242 | no address is in a range of the other version |
| `AddressText.SpellingAccepted` | app/src/main/java/io/github/ulysseszh/sunproxy/Utils.kt:81-107 | eight groups of one to four hexadecimal digits are accepted, and groups around one gap if and only if there are at most six, five if the gap is at an end |
| `AddressText.OnlySpellings` | app/src/main/java/io/github/ulysseszh/sunproxy/Utils.kt:81-107 | and nothing else is |
| `AddressText.GroupsRead` | app/src/main/java/io/github/ulysseszh/sunproxy/Utils.kt:180-196 | an accepted spelling denotes its groups with zeros for the gap |
| `AddressText.OctetsAre` | app/src/main/java/io/github/ulysseszh/sunproxy/Utils.kt:45-63 | a part of a quad is accepted if and only if it is a number up to 255 as it prints, a plus sign with one or two digits, or a minus sign with one or two zeros |
| `Address.SamePrefixIsTopBits` | app/src/main/java/io/github/ulysseszh/sunproxy/Utils.kt:203-213 | comparing whole bytes and one masked byte is comparing the top bits of the numbers |
| `Address.ComparePrefix` | app/src/main/java/io/github/ulysseszh/sunproxy/Utils.kt:221-231 | the loop decides that comparison |
| `Address.Ipv6ToBytes` | app/src/main/java/io/github/ulysseszh/sunproxy/Utils.kt:180-196 | filling from both ends stays in bounds and gives the bytes of the eight groups, the gap zero |
| `Address.SameAddressSameBytes` | app/src/main/java/io/github/ulysseszh/sunproxy/Utils.kt:180-196 | two spellings of one IPv6 address give the same bytes, and two addresses different ones |
| `Address.ValidIpv6Shape` | app/src/main/java/io/github/ulysseszh/sunproxy/Utils.kt:81-107 | a valid address has eight groups, or at most six around one gap |
| `Checksum.CalcChecksum` | app/src/main/jni/netguard/util.c:24-41 | for every buffer of at most 131072 bytes the accumulator does not overflow, the fold ends and the result is the one's complement sum |
| `Checksum.ChainedChecksum` | app/src/main/jni/netguard/tcp.c:1279-1282 | continuing over an even piece is the checksum of the pieces joined |
| `Checksum.VerifiesInNetworkOrder` | app/src/main/jni/netguard/util.c:24-41 | a sum of little-endian words that verifies also verifies in network byte order |
| `TcpPacket.WriteTcp` | app/src/main/jni/netguard/tcp.c:1176-1283 | the packet written is the one that `PacketReceived` is about, its checksum continued over four pieces |
| `TcpPacket.PacketVerifies` | app/src/main/jni/netguard/tcp.c:1208-1283 | every packet built adds up to 0xFFFF for its receiver: the IPv4 header, and the segment behind the standard pseudo header of either version |
| `TcpPacket.SegmentReads` | app/src/main/jni/netguard/tcp.c:1250-1265 | the receiver reads the ports exchanged, the numbers, flags, scaled window and data that were meant |
| `TcpPacket.PacketReceived` | app/src/main/jni/netguard/tcp.c:1176-1283 | a receiver that takes version, lengths, fragmentation, protocol and checksums from the bytes, and cuts the segment by the length field, accepts every packet of either version and reads the addresses exchanged, 64 hops, all fields, the options and the whole data |
| `TcpPacket.LengthFields` | app/src/main/jni/netguard/tcp.c:1184-1234 | the IPv4 total length is the size of the packet, the IPv6 payload length that less 40 |
| `TcpPacket.PlainHeaders` | app/src/main/jni/netguard/tcp.c:1184-1234 | headers without options, extensions, traffic class or flow label, never a fragment |
| `TcpPacket.OptionsRead` | app/src/main/jni/netguard/tcp.c:1267-1276 | the app reads the window scale that was meant and the segment size with its bytes exchanged; only SYN packets carry options |
| `TcpPacket.WindowRead` | app/src/main/jni/netguard/tcp.c:1261 | scaled up again, the window field is never more than the receive window and less than one unit short of it |
| `DnsName.GetQname` | app/src/main/jni/netguard/dns.c:22-76 | for every message and offset all accesses are in bounds, the loop ends within 26 items, and buffer and result are those of the specification |
| `DnsName.NameDecoded` | app/src/main/jni/netguard/dns.c:22-76 | for every name section 4.1.4 of RFC 1035 denotes, the result is its labels joined with dots if and only if it is not the root, takes at most 26 items and at most 256 octets |
| `DnsName.NextOffset` | app/src/main/jni/netguard/dns.c:49-75 | the offset returned is the place after the name if and only if the name has no pointer or starts with one |
| `DnsName.WalkReads` | app/src/main/jni/netguard/dns.c:33-67 | the loop over a name that fits ends with all labels appended |
| `DnsMessage.HostsAnswerReads` | app/src/main/jni/sunproxy/sunproxy.c:59-90 | reading the hosts answer to any accepted query with an uncompressed name gives exactly one answer with the name asked for, the address and ttl 600, ending with the message, unless the name has 26 labels |
| `DnsMessage.HostsAnswerHeader` | app/src/main/jni/sunproxy/sunproxy.c:59-90 | its header has the identity, opcode and question of the query, QR set, other flags and code cleared, and one answer announced |
| `DnsMessage.CheckDomain` | app/src/main/jni/sunproxy/sunproxy.c:38-97 | which queries are answered, and all bytes of the answer |
| `DnsMessage.GetDnsQuery` | app/src/main/jni/sunproxy/sunproxy.c:3-36 | which messages are accepted as queries, with name, type and class |
| `DnsMessage.ParseDnsResponse` | app/src/main/jni/netguard/dns.c:78-239 | the calls of `dns_resolved` and the response left in place are those that `ResponseRead` and `ResponseRefused` are about |
| `DnsMessage.RewrittenHeaderOnly` | app/src/main/jni/netguard/dns.c:78-239 | only a response that is refused is changed, and only in its flags and record counts |
| `DnsResponse.ResponseRead` | app/src/main/jni/netguard/dns.c:78-178 | for every question and every list of records of any types, classes and lengths, reading the encoded response makes one call per IN A and AAAA record, in order, with its name, address and ttl, notices a service if and only if an IN SVCB or HTTPS record is there, and ends behind the last record |
| `DnsResponse.ResponseRefused` | app/src/main/jni/netguard/dns.c:180-205 | it is refused if and only if the name is blocked or such a record is there; what is left is the header with QR and the code set and no records, and the question |
| `DnsResponse.OneRead` | app/src/main/jni/netguard/dns.c:122-178 | one record of any type, class and length: an address is the four or sixteen bytes at its data whatever length it states, and its data is skipped by that length |
| `DnsResponse.MixedOwnerMisread` | app/src/main/jni/netguard/dns.c:122-130 | a record whose name is labels followed by a pointer is read two bytes behind its start |
| `DnsResponse.AnswersWithin` | app/src/main/jni/netguard/dns.c:122-178 | for all bytes there are at most as many calls as records announced, and a complete reading stays within the message |
| `DnsResponse.QueryAccepted` | app/src/main/jni/sunproxy/sunproxy.c:3-36 | an encoded message is accepted as a query if and only if it is one of opcode 0 with a question and nothing behind it; then its name, type and class are read |
| `DnsResponse.AliasRead` | app/src/main/jni/netguard/dns.c:122-178 | the response of 49 bytes with an alias before the address is read to its end with one call |
| `DnsMessage.QueryRead` | app/src/main/jni/sunproxy/sunproxy.c:24-33 | an accepted query with an uncompressed name is at most 1681 bytes and its type and class follow the name |
| `Sni.GetSni` | app/src/main/jni/netguard/tls.c:22-175 | for all bytes every access is in bounds, the loop ends, and buffer and result are those of the specification |
| `Sni.ServerNameFound` | app/src/main/jni/netguard/tls.c:50-174 | for every ClientHello whose variable fields take at most 206 bytes, the result is its first server name if that has at most 254 bytes and another extension follows, else none |
| `Sni.ExtensionsFound` | app/src/main/jni/netguard/tls.c:50-100 | for every ClientHello the parser finds the extensions if and only if the fields take at most 206 bytes, and rejects the message at 207 and 208 |
| `Sni.WrappedIndexMissesExtensions` | app/src/main/jni/netguard/tls.c:87-100 | beyond 206 bytes a name found is one that a scan from another place before byte 256 gives; at 207 and 208 there is none |
| `Sni.WrongNameRead` | app/src/main/jni/netguard/tls.c:63-100 | for every list of extensions and every name of at most 244 bytes there is a valid hello with 256 bytes of cipher suites from which that name is read, whatever the extensions say |
| `Sni.ScanEncoded` | app/src/main/jni/netguard/tls.c:104-174 | the loop over any encoded extension list finds the first server name or rejects it |
| `Sni.NameOnlyInHello` | app/src/main/jni/netguard/tls.c:22-174 | for all bytes a name is found only in a handshake record of major version 3 or more with its right length that holds a ClientHello, and stands there behind its own length |
| `UidCache.Cache.GetUidSub` | app/src/main/jni/netguard/ip.c:436-565 | the three loops give the uid and the cache of the specification |
| `UidCache.CacheRefinesScan` | app/src/main/jni/netguard/ip.c:449-465 | over every run of lookups at any times, while the tables stay unchanged, each query whose matching lines carry one uid gets what a full scan gives |
| `UidCache.LookupIsScan` | app/src/main/jni/netguard/ip.c:449-554 | one lookup answers as a scan would and keeps every entry a line of its table |
| `UidCache.MatchesOwned` | app/src/main/jni/netguard/ip.c:449-465 | a line of the tables matches a packet if and only if some connection it stands for sends it, 0 standing for any address or port of the remote end |
| `UidCache.TablesThereAre` | app/src/main/jni/netguard/ip.c:467-480 | there are tables for TCP and UDP of both versions, ICMP of version 4 and ICMPv6 of version 6 |
| `UidCache.HitsExactly` | app/src/main/jni/netguard/ip.c:449-465 | an entry answers if and only if it is at most 30 seconds old, of the packet's version and protocol, and matches |
| `UidCache.AnswerWithoutHit` | app/src/main/jni/netguard/ip.c:467-565 | otherwise -1 is answered without a table, -2 if it cannot be read, else the uid of the last line that matches or -1 |
| `UidCache.FillKeepsFresh` | app/src/main/jni/netguard/ip.c:531-544 | a fill pass overwrites no entry that has not expired |
| `UidCache.FillStores` | app/src/main/jni/netguard/ip.c:546-553 | it stores every line it reads |
| `UidCache.FillOrigin` | app/src/main/jni/netguard/ip.c:518-554 | it brings in nothing else |
| `UidCache.RepeatedQuery` | app/src/main/jni/netguard/ip.c:449-529 | from any cache without an answer, a query repeated within 30 seconds is answered as before if and only if the first and the last matching line carry one uid |

## Left out

Weaker than the source in one respect:

- Text.ToIntOrNull: digits are ASCII; Kotlin also takes other decimal digits.
- Wildcard.WildcardMeaning: `\w` and the ignoring of case are modelled for ASCII letters; letters from U+0100 on are compared as they are.
- RuleText.SpacedTokens: `\s` is the ASCII white space that java.util.regex documents; the regex engine of Android takes more.
- RuleList.FromLines: errors carry no line numbers.
- TcpTheorems.OutboundFidelity: the SYN carries no data, and data that is queued starts less than 2^31 - 0x10001 beyond `remote_seq` and agrees with the stream; `TcpSynFidelity.SynDataFidelity` says what holds and what fails when it does carry data.
- TcpTheorems.QueueInOrder: data starts less than 2^31 - 0x10001 beyond `remote_seq`.
- TcpOrder.RunOrdered: the same.
- TcpTheorems.AckSafety: the SYN carries no data, data stays within that reach and agrees with the stream, and FINs follow what is queued, as they do when packets arrive in order; `TcpFin.EarlyFinAcksUnsent` and `TcpFin.DeferredFinAcksUnsent` cover the others, `TcpSynFidelity.SynDataAcks` data on the SYN.
- TcpTheorems.FinMeansComplete: the same as for AckSafety; with data on the SYN no FIN is ever counted (`TcpSynFidelity.SynDataFidelity`).
- TcpStall.StuckForever: data arrives less than 2^31 - 0x10001 beyond `remote_seq`.
- TcpProgress.StuckIffClash: the same.
- TcpSynData.SynDataForwarded: the same.
- TcpSynFidelity.SynDataFidelity: the same.
- TcpFlow.StepFlow: the one ACK that `TcpFlow.AckedOnlyAdvances` excludes does not arrive.
- TcpFlow.RunFlow: the same.
- TcpLife.DeletedOnceClosed: the limit of sessions is positive; the source divides by it.
- TcpPacket.PacketVerifies: a total length of at most 65535, which the length field can hold.
- TcpPacket.PacketReceived: the same.
- TcpPacket.WindowRead: the scale is at most 31, since the source shifts 32-bit numbers.
- DnsResponse.ResponseRead: the names in the message denote their labels, take at most 26 items and 256 octets, and have no pointer or are one; `DnsName.NameDecoded` and `DnsResponse.MixedOwnerMisread` say what becomes of the others. Addresses have their proper length; `DnsResponse.OneRead` covers the others.
- TcpConversation.WholeConversation: data in one piece each way, and numbers toward the app that do not wrap; `TcpTheorems.OutboundFidelity` and `TcpTheorems.InboundFidelity` cover every other run.
- TcpWindow.WindowAdvertised: a window scale of at most 14, and for what is in flight the one ACK that `TcpFlow.AckedOnlyAdvances` excludes does not arrive.
- TcpWindow.SentWithinAdvertised: the same.
- TcpSession.Session.Queue: the queue is a sequence, so aliasing and freeing of its segments are not modelled.
- TcpUsage.UsageConserved: the 64-bit counters are unbounded.
- Udp.UsageConserved: the 64-bit counters are unbounded.
- SessionList.Context.CheckSessions: freeing is the ghost list of nodes unlinked; use after free is not modelled.
- Address.ComparePrefix: the two loops of `isIpv4InRange` and `isIpv6InRange`, equal up to the array length, are one method, and the 32-bit `and` is arithmetic.
- DnsMessage.CheckDomain: what `address_from_hosts` finds is a parameter.
- UidCache.Cache.GetUidSub: lines of the tables are already parsed; reading stops at the first malformed one.

Not modelled:

- Real sockets, epoll, files and the clock: their results are inputs, and a socket is a flag saying whether it is open.
- SOCKS5, which the service always leaves empty; a connect leads straight to the SYN-ACK.
- Decoding of TCP options: MSS and window scale are inputs, and a scale above 14 is excluded where flow control is claimed.
- The RST for a packet without a session, which changes no session.
- `clear`, which drops counters unreported, and access to the list from other threads.
- ICMP forwarding, DHCP and IPv6 extension headers; ICMP sessions appear in the table with their addresses and stop flag only.
- UDP and ICMP packet builders, which repeat the checksum scheme of the TCP one.
- HTTP host parsing, JNI calls, logging and the service life cycle; the rule verdict for a packet is an input of the table, and whether a DNS response is refused one of the step.
