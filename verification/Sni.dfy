/** `get_sni` of tls.c: the server name in a ClientHello, section 7.4.1.2 of RFC 5246 and section 3 of
    RFC 6066. */
module Sni {
  import opened Serial
  import opened Bytes
  import opened Text

  const TLS_SNI_LENGTH := 255
  const TLS_HANDSHAKE_RECORD: u8 := 22
  const TLS_MESSAGE_CLIENTHELLO: u8 := 1
  const TLS_EXTENSION_TYPE_SERVER_NAME: u16 := 0

  /** Lengths are `uint16_t`. */
  type Data = b: seq<u8> | |b| <= 0xFFFF

  /** `index` has eight bits. */
  function U8(x: nat): (r: u8)
    ensures r <= x
  {
    x % 256
  }

  // ---------------------------------------------------------------- the parser

  predicate IsClientHello(data: Data) {
    && |data| >= 6
    && data[0] == TLS_HANDSHAKE_RECORD && data[1] >= 3 && 5 + WordAt(data, 3) as int == |data|
    && data[5] == TLS_MESSAGE_CLIENTHELLO
  }

  /** Where the extensions begin. */
  function ExtensionsAt(data: Data): (r: Option<nat>)
    ensures r.Some? ==> r.value < |data| && r.value < 256
  {
    if !IsClientHello(data) || 43 >= |data| then None
    else
      var afterSession: nat := U8((data[43] as int) + 44);
      if afterSession + 1 >= |data| then None
      else
        var afterSuites: nat := U8(afterSession + 2 + WordAt(data, afterSession));
        if afterSuites >= |data| then None
        else
          var afterCompression: nat := U8(afterSuites + 1 + data[afterSuites]);
          if afterCompression + 1 >= |data| then None
          else
            var edatalen: nat, index: nat := WordAt(data, afterCompression), U8(afterCompression + 2);
            if edatalen == 0 || index + edatalen != |data| then None else Some(index)
  }

  /** The server name extension at `i`, behind its type and length. */
  function NameAt(edata: Data, i: nat): Option<seq<u8>> {
    if i + 1 >= |edata| then None
    else
      var sniLen: nat := WordAt(edata, i);
      if i + 2 + sniLen >= |edata| then None
      else if edata[i + 2] != 0 then None
      else if i + 4 >= |edata| then None
      else
        var nameLen: nat := WordAt(edata, i + 3);
        if i + 5 + nameLen >= |edata| || nameLen >= TLS_SNI_LENGTH then None
        else Some(edata[i + 5..i + 5 + nameLen])
  }

  /** The loop over the extensions from `i` on. */
  function Scan(edata: Data, i: nat): Option<seq<u8>>
    decreases |edata| - i
  {
    if i + 3 >= |edata| then None
    else
      var len: nat := WordAt(edata, i + 2);
      if i + 4 + len > |edata| then None
      else if WordAt(edata, i) == TLS_EXTENSION_TYPE_SERVER_NAME then NameAt(edata, i + 4)
      else Scan(edata, i + 4 + len)
  }

  function Sni(data: Data): Option<seq<u8>> {
    match ExtensionsAt(data)
    case None => None
    case Some(index) => Scan(data[index..], 0)
  }

  /** `get_sni`: for all bytes, every read is inside the packet, every write inside the buffer, no 16-bit
      index overflows, and the loop ends. */
  method GetSni(data: Data, serverName: array<u8>) returns (found: bool)
    requires serverName.Length == TLS_SNI_LENGTH + 1
    modifies serverName
    ensures found == Sni(data).Some?
    ensures found ==> var name := Sni(data).value;
                      |name| < TLS_SNI_LENGTH && serverName[..|name|] == name && serverName[|name|] == 0
    ensures !found ==> serverName[..] == old(serverName[..])
  {
    hide U8, Scan;
    if !IsClientHello(data) {
      return false;
    }
    var index: u8 := 6 + 3 + 2 + 32;
    if index >= |data| {
      return false;
    }
    index := U8(index + 1 + data[index]);
    if index + 1 >= |data| {
      return false;
    }
    index := U8(index + 2 + WordAt(data, index));
    if index >= |data| {
      return false;
    }
    index := U8(index + 1 + data[index]);
    if index + 1 >= |data| {
      return false;
    }
    var edatalen: u16 := WordAt(data, index);
    index := U8(index + 2);
    if edatalen == 0 || index + edatalen != |data| {
      return false;
    }
    found := ReadExtensions(data[index..], serverName);
  }

  method ReadExtensions(edata: Data, serverName: array<u8>) returns (found: bool)
    requires serverName.Length == TLS_SNI_LENGTH + 1
    modifies serverName
    ensures found == Scan(edata, 0).Some?
    ensures found ==> var name := Scan(edata, 0).value;
                      |name| < TLS_SNI_LENGTH && serverName[..|name|] == name && serverName[|name|] == 0
    ensures !found ==> serverName[..] == old(serverName[..])
  {
    hide NameAt;
    var edatalen: u16, eindex: u16 := |edata|, 0;
    while eindex < edatalen
      invariant eindex <= edatalen && serverName[..] == old(serverName[..])
      invariant Scan(edata, 0) == Scan(edata, eindex)
      decreases edatalen - eindex
    {
      if eindex + 1 >= edatalen {
        return false;
      }
      var extType := WordAt(edata, eindex);
      eindex := eindex + 2;
      if eindex + 1 >= edatalen {
        return false;
      }
      var extLen := WordAt(edata, eindex);
      eindex := eindex + 2;
      if eindex + extLen > edatalen {
        return false;
      }
      if extType == TLS_EXTENSION_TYPE_SERVER_NAME {
        found := ReadName(edata, eindex, serverName);
        return;
      }
      eindex := eindex + extLen;
    }
    return false;
  }

  method ReadName(edata: Data, start: u16, serverName: array<u8>) returns (found: bool)
    requires start <= |edata| && serverName.Length == TLS_SNI_LENGTH + 1
    modifies serverName
    ensures found == NameAt(edata, start).Some?
    ensures found ==> var name := NameAt(edata, start).value;
                      |name| < TLS_SNI_LENGTH && serverName[..|name|] == name && serverName[|name|] == 0
    ensures !found ==> serverName[..] == old(serverName[..])
  {
    var edatalen: u16, eindex: u16 := |edata|, start;
    if eindex + 1 >= edatalen {
      return false;
    }
    var sniLen := WordAt(edata, eindex);
    eindex := eindex + 2;
    if eindex + sniLen >= edatalen {
      return false;
    }
    if eindex >= edatalen {
      return false;
    }
    var sniType := edata[eindex];
    eindex := eindex + 1;
    if sniType != 0 {
      return false;
    }
    if eindex + 1 >= edatalen {
      return false;
    }
    var nameLen := WordAt(edata, eindex);
    eindex := eindex + 2;
    if eindex + nameLen >= edatalen {
      return false;
    }
    if nameLen >= TLS_SNI_LENGTH {
      return false;
    }
    forall i | 0 <= i < nameLen {
      serverName[i] := edata[eindex + i];
    }
    serverName[nameLen] := 0;
    assert serverName[..nameLen] == edata[eindex..eindex + nameLen];
    return true;
  }

  // ---------------------------------------------------------------- messages

  datatype Extension = ServerName(name: seq<u8>) | Other(kind: u16, content: Data)

  predicate ValidExtension(e: Extension) {
    match e
    case ServerName(name) => |name| <= 0xFFFF - 5
    case Other(kind, _) => kind != 0
  }

  /** `extension_data`; a server name list holds one host name. */
  function Content(e: Extension): (b: Data)
    requires ValidExtension(e)
  {
    match e
    case ServerName(name) => Net16(|name| + 3) + [0] + Net16(|name|) + name
    case Other(_, content) => content
  }

  function Kind(e: Extension): u16 {
    if e.ServerName? then 0 else e.kind
  }

  function EncodeExtension(e: Extension): (b: seq<u8>)
    requires ValidExtension(e)
    ensures |b| == 4 + |Content(e)|
  {
    Net16(Kind(e)) + Net16(|Content(e)|) + Content(e)
  }

  predicate ValidExtensions(es: seq<Extension>) {
    forall i | 0 <= i < |es| :: ValidExtension(es[i])
  }

  function EncodeExtensions(es: seq<Extension>): seq<u8>
    requires ValidExtensions(es)
  {
    if es == [] then [] else EncodeExtension(es[0]) + EncodeExtensions(es[1..])
  }

  datatype Hello = Hello(
    version: Data, random: Data, session: Data, suites: Data, compression: Data, extensions: seq<Extension>)

  predicate ValidHello(h: Hello) {
    && |h.version| == 4 && h.version[0] >= 3 && |h.random| == 32
    && |h.session| <= 255 && |h.compression| <= 255
    && ValidExtensions(h.extensions) && h.extensions != []
    && 49 + Variable(h) + |EncodeExtensions(h.extensions)| <= 0xFFFF
  }

  /** The bytes whose number moves the extensions. */
  function Variable(h: Hello): nat {
    |h.session| + |h.suites| + |h.compression|
  }

  /** Record header, handshake header, versions and random; `version` holds that of the record, then that
      of the message. */
  function Head(h: Hello): (b: seq<u8>)
    requires ValidHello(h)
    ensures |b| == 43
  {
    var n := 44 + Variable(h) + |EncodeExtensions(h.extensions)|;
    [22] + h.version[..2] + Net16(n) + [1, 0] + Net16(n - 4)
    + h.version[2..] + h.random
  }

  function Encode(h: Hello): (b: Data)
    requires ValidHello(h)
  {
    Head(h) + ([|h.session|] + h.session) + (Net16(|h.suites|) + h.suites) + ([|h.compression|] + h.compression)
    + Net16(|EncodeExtensions(h.extensions)|) + EncodeExtensions(h.extensions)
  }

  /** What the parser finds in a list of extensions: the first server name, unless it is too long or no
      extension follows it. */
  function Expected(es: seq<Extension>): Option<seq<u8>>
  {
    if es == [] then None
    else if es[0].ServerName? then
      if |es| > 1 && |es[0].name| <= 254 then Some(es[0].name) else None
    else Expected(es[1..])
  }

  lemma ReadsBack(a: seq<u8>, x: u16, b: seq<u8>)
    ensures WordAt(a + Net16(x) + b, |a|) == x
  {
    var s := a + Net16(x) + b;
    assert s[|a|] == Net16(x)[0] && s[|a| + 1] == Net16(x)[1];
  }

  lemma NameRead(before: seq<u8>, name: seq<u8>, after: seq<u8>)
    requires |name| <= 0xFFFF - 5
    requires |before + Content(ServerName(name)) + after| <= 0xFFFF
    ensures NameAt(before + Content(ServerName(name)) + after, |before|)
            == if after != [] && |name| < TLS_SNI_LENGTH then Some(name) else None
  {
    hide Net16, WordAt, Content;
    var n := |name|;
    var s := before + Content(ServerName(name)) + after;
    NameParts(before, name, after);
    var front := before + Net16(n + 3) + [0];
    ReadsBack(before, n + 3, [0] + Net16(n) + name + after);
    ReadsBack(front, n, name + after);
    assert s[|before| + 2] == front[|before| + 2] == 0;
    SliceAt(front + Net16(n), name, after);
  }

  lemma NameParts(before: seq<u8>, name: seq<u8>, after: seq<u8>)
    requires |name| <= 0xFFFF - 5
    ensures var s, n := before + Content(ServerName(name)) + after, |name|;
            && s == before + Net16(n + 3) + ([0] + Net16(n) + name + after)
            && s == before + Net16(n + 3) + [0] + Net16(n) + (name + after)
            && s == before + Net16(n + 3) + [0] + Net16(n) + name + after
  {
    hide Net16;
    var n := |name|;
    var a, b := Net16(n + 3), Net16(n);
    assert before + (a + [0] + b + name) + after == before + a + [0] + b + name + after;
    assert before + a + [0] + b + name + after == before + a + [0] + b + (name + after);
    assert before + a + [0] + b + (name + after) == before + a + ([0] + b + name + after);
  }

  lemma SliceAt(a: seq<u8>, b: seq<u8>, c: seq<u8>)
    ensures (a + b + c)[|a|..|a| + |b|] == b
  {
  }

  /** The groupings of a message around one extension in which its fields are read. */
  lemma ExtensionParts(before: seq<u8>, k: seq<u8>, n: seq<u8>, c: seq<u8>, rest: seq<u8>)
    ensures var s := before + (k + n + c + rest);
            && s == before + k + (n + c + rest) && s == before + k + n + (c + rest)
            && s == before + k + n + c + rest && s == before + (k + n + c) + rest
  {
  }

  /** Type and length of the extension behind `before`. */
  lemma ExtensionFields(before: seq<u8>, kind: u16, c: Data, rest: seq<u8>)
    ensures var s := before + (Net16(kind) + Net16(|c|) + c + rest);
            WordAt(s, |before|) == kind && WordAt(s, |before| + 2) == |c|
  {
    hide Net16, WordAt;
    var k, n := Net16(kind), Net16(|c|);
    ExtensionParts(before, k, n, c, rest);
    ReadsBack(before, kind, n + c + rest);
    ReadsBack(before + k, |c|, c + rest);
  }

  lemma {:induction false} ScanEncoded(before: seq<u8>, es: seq<Extension>)
    requires ValidExtensions(es) && |before + EncodeExtensions(es)| <= 0xFFFF
    ensures Scan(before + EncodeExtensions(es), |before|) == Expected(es)
    decreases |es|
  {
    hide Net16, NameAt, Content, WordAt;
    if es == [] {
      ScanEnds(before);
    } else {
      var e, rest := es[0], EncodeExtensions(es[1..]);
      var c := Content(e);
      var k, n := Net16(Kind(e)), Net16(|c|);
      assert EncodeExtensions(es) == k + n + c + rest;
      ExtensionFields(before, Kind(e), c, rest);
      ExtensionParts(before, k, n, c, rest);
      if e.ServerName? {
        NameRead(before + k + n, e.name, rest);
        EncodedNonempty(es[1..]);
      } else {
        ScanEncoded(before + (k + n + c), es[1..]);
      }
    }
  }

  lemma ScanEnds(before: Data)
    ensures Scan(before + [], |before|) == None
  {
  }

  lemma EncodedNonempty(es: seq<Extension>)
    requires ValidExtensions(es)
    ensures EncodeExtensions(es) != [] <==> es != []
  {
  }

  // ---------------------------------------------------------------- the header

  lemma HeadOf(h: Hello, rest: seq<u8>)
    requires ValidHello(h) && |rest| == 6 + Variable(h) + |EncodeExtensions(h.extensions)|
    ensures IsClientHello(Head(h) + rest)
  {
    hide Net16, EncodeExtensions, ValidExtensions;
    var n := 44 + Variable(h) + |EncodeExtensions(h.extensions)|;
    var s := Head(h) + rest;
    var front := [22] + h.version[..2];
    assert Head(h)[..5] == front + Net16(n);
    ReadsBack(front, n, s[5..]);
    assert s == front + Net16(n) + s[5..];
    assert s[0] == Head(h)[0] && s[1] == Head(h)[1] == h.version[0] && s[5] == Head(h)[5];
  }

  /** A length byte, or a 16-bit length, in front of a field in the middle of a message. */
  lemma Length8At(a: seq<u8>, n: u8, field: seq<u8>, rest: seq<u8>)
    ensures (a + ([n] + field) + rest)[|a|] == n
  {
  }

  lemma Length16At(a: seq<u8>, n: u16, field: seq<u8>, rest: seq<u8>)
    ensures WordAt(a + (Net16(n) + field) + rest, |a|) == n
  {
    hide Net16, WordAt;
    ReadsBack(a, n, field + rest);
    assert a + (Net16(n) + field) + rest == a + Net16(n) + (field + rest);
  }

  lemma Regroup(a: seq<u8>, b: seq<u8>, c: seq<u8>, d: seq<u8>, e: seq<u8>)
    ensures a + b + c + d + e == a + b + (c + d + e) == a + b + c + (d + e) == a + (b + c + d + e)
  {
  }

  /** The lengths lie where the parser looks for them. */
  lemma Lengths(h: Hello)
    requires ValidHello(h)
    ensures var s, i, j := Encode(h), 44 + |h.session|, 46 + |h.session| + |h.suites|;
            && |s| == 49 + Variable(h) + |EncodeExtensions(h.extensions)| && IsClientHello(s)
            && s[43] == |h.session| && WordAt(s, i) == |h.suites| && s[j] == |h.compression|
            && WordAt(s, j + 1 + |h.compression|) == |EncodeExtensions(h.extensions)|
    ensures Encode(h)[49 + Variable(h)..] == EncodeExtensions(h.extensions)
  {
    hide Net16, WordAt, Head, EncodeExtensions, ValidExtensions, IsClientHello;
    var e := EncodeExtensions(h.extensions);
    var a, b := Head(h), [|h.session|] + h.session;
    var c, d := Net16(|h.suites|) + h.suites, [|h.compression|] + h.compression;
    var f := Net16(|e|) + e;
    assert a + b + c + d + f == Encode(h) by {
      assert a + b + c + d + (Net16(|e|) + e) == a + b + c + d + Net16(|e|) + e;
    }
    Regroup(a, b, c, d, f);
    HeadOf(h, b + c + d + f);
    Length8At(a, |h.session|, h.session, c + d + f);
    Length16At(a + b, |h.suites|, h.suites, d + f);
    Length8At(a + b + c, |h.compression|, h.compression, f);
    ReadsBack(a + b + c + d, |e|, e);
  }

  /** For every hello the parser finds the extensions exactly if the 8-bit index does not wrap on the way,
      which takes at most 206 bytes of session id, cipher suites and compression methods.  With one or two
      more it rejects the message; with more still it may read on at a place before byte 256. */
  lemma ExtensionsFound(h: Hello)
    requires ValidHello(h)
    ensures ExtensionsAt(Encode(h)) == Some(49 + Variable(h)) <==> Variable(h) <= 206
    ensures 207 <= Variable(h) <= 208 ==> ExtensionsAt(Encode(h)) == None
  {
    hide Net16, WordAt, Encode, EncodeExtensions, ValidExtensions, IsClientHello, ExtensionsAt;
    Lengths(h);
    EncodedNonempty(h.extensions);
    FieldsFound(Encode(h), |h.session|, |h.suites|, |h.compression|, |EncodeExtensions(h.extensions)|);
  }

  /** The walk over fields of `a`, `b` and `c` bytes to `e` bytes of extensions. */
  lemma FieldsFound(s: Data, a: nat, b: nat, c: nat, e: nat)
    requires IsClientHello(s) && |s| == 49 + a + b + c + e && e > 0
    requires s[43] == a && WordAt(s, 44 + a) == b && s[46 + a + b] == c && WordAt(s, 47 + a + b + c) == e
    ensures ExtensionsAt(s) == Some(49 + a + b + c) <==> a + b + c <= 206
    ensures 207 <= a + b + c <= 208 ==> ExtensionsAt(s) == None
  {
    hide WordAt, IsClientHello;
  }

  /** For every ClientHello whose session id, cipher suites and compression methods take at most 206 bytes:
      the first server name, if it is shorter than 255 bytes and another extension follows, else nothing. */
  lemma ServerNameFound(h: Hello)
    requires ValidHello(h) && Variable(h) <= 206
    ensures Sni(Encode(h)) == Expected(h.extensions)
  {
    hide Encode, EncodeExtensions, ValidExtensions, ExtensionsAt, Scan;
    var e := EncodeExtensions(h.extensions);
    ExtensionsFound(h);
    Lengths(h);
    assert [] + e == e;
    ScanEncoded([], h.extensions);
  }

  /** Beyond that, what is found is not read from the extensions: nothing, or what a scan from another place
      among the first 256 bytes gives. */
  lemma WrappedIndexMissesExtensions(h: Hello)
    requires ValidHello(h) && Variable(h) > 206
    ensures Variable(h) <= 208 ==> Sni(Encode(h)) == None
    ensures Sni(Encode(h)).Some? ==>
              exists i :: 0 <= i < 256 && i != 49 + Variable(h) && i < |Encode(h)|
                          && Sni(Encode(h)) == Scan(Encode(h)[i..], 0)
  {
    hide Encode, Scan, ExtensionsAt;
    ExtensionsFound(h);
    if Sni(Encode(h)).Some? {
      var i := ExtensionsAt(Encode(h)).value;
      assert Sni(Encode(h)) == Scan(Encode(h)[i..], 0);
    }
  }

  // ---------------------------------------------------------------- a name read from the wrong place

  function Zeros(n: nat): (z: seq<u8>)
    ensures |z| == n
  {
    seq(n, i => 0)
  }

  /** The extensions of `h` behind 256 bytes of cipher suites, which bring the index back to where it was and hold
      what looks like a server name extension there. */
  function Wrapped(h: Hello, name: seq<u8>): Hello
    requires ValidHello(h) && |name| <= 244 && |EncodeExtensions(h.extensions)| < 0x1_0000 - 306
  {
    var list := EncodeExtension(ServerName(name)) + Zeros(244 - |name|);
    h.(session := [], compression := [],
       suites := [0] + Net16(256 + |EncodeExtensions(h.extensions)|) + list)
  }

  /** What the parser reads behind the wrap. */
  lemma WrappedFields(h: Hello, name: seq<u8>)
    requires ValidHello(h) && |name| <= 244 && |EncodeExtensions(h.extensions)| < 0x1_0000 - 306
    ensures var s := Encode(Wrapped(h, name));
            && s[46] == 0 && WordAt(s, 47) == 256 + |EncodeExtensions(h.extensions)|
            && Scan(s[49..], 0) == Some(name)
  {
    hide Net16, WordAt, Head, EncodeExtensions, ValidExtensions, NameAt, Scan, EncodeExtension;
    var e := EncodeExtensions(h.extensions);
    var w := Wrapped(h, name);
    var n, list := Net16(256 + |e|), EncodeExtension(ServerName(name)) + Zeros(244 - |name|);
    var front := Head(w) + [0] + Net16(256);
    var back := [0] + Net16(|e|) + e;
    assert Encode(w) == front + [0] + n + (list + back) by {
      Regrouped(Head(w), Net16(256), n, list, Net16(|e|), e);
    }
    ReadsBack(front + [0], 256 + |e|, list + back);
    BehindZero(front, n, list + back);
    var after := Zeros(244 - |name|) + back;
    assert list + back == EncodeExtension(ServerName(name)) + after;
    WrappedName(name, after);
  }

  lemma BehindZero(front: seq<u8>, n: seq<u8>, rest: seq<u8>)
    requires |n| == 2
    ensures var s := front + [0] + n + rest; s[|front|] == 0 && s[|front| + 3..] == rest
  {
  }

  lemma Regrouped(a: seq<u8>, p: seq<u8>, n: seq<u8>, list: seq<u8>, q: seq<u8>, e: seq<u8>)
    ensures a + ([0] + []) + (p + ([0] + n + list)) + ([0] + []) + q + e
            == (a + [0] + p) + [0] + n + (list + ([0] + q + e))
  {
  }

  lemma WrappedName(name: seq<u8>, after: seq<u8>)
    requires |name| <= 244 && 0 < |after| && |name| + 9 + |after| <= 0xFFFF
    ensures Scan(EncodeExtension(ServerName(name)) + after, 0) == Some(name)
  {
    hide Net16, WordAt, NameAt, Scan;
    var c := Content(ServerName(name));
    var k, l := Net16(TLS_EXTENSION_TYPE_SERVER_NAME), Net16(|c|);
    var all := EncodeExtension(ServerName(name)) + after;
    assert all == [] + (k + l + c + after) by {
      assert EncodeExtension(ServerName(name)) == k + l + c;
    }
    ExtensionFields([], TLS_EXTENSION_TYPE_SERVER_NAME, c, after);
    assert all == (k + l) + c + after;
    NameRead(k + l, name, after);
    NameFirst(all);
  }

  /** One step of the loop. */
  lemma NameFirst(s: Data)
    requires 4 <= |s| && WordAt(s, 0) == TLS_EXTENSION_TYPE_SERVER_NAME && 4 + WordAt(s, 2) <= |s|
    ensures Scan(s, 0) == NameAt(s, 4)
  {
  }

  /** So for every list of extensions and every name of at most 244 bytes there is a valid hello from which that
      name is read, whatever the extensions say. */
  lemma WrongNameRead(h: Hello, name: seq<u8>)
    requires ValidHello(h) && |name| <= 244 && |EncodeExtensions(h.extensions)| < 0x1_0000 - 306
    ensures ValidHello(Wrapped(h, name)) && Variable(Wrapped(h, name)) == 256
    ensures Sni(Encode(Wrapped(h, name))) == Some(name)
  {
    hide Net16, WordAt, Encode, Head, EncodeExtensions, EncodeExtension, ValidExtensions, IsClientHello, Scan;
    hide ExtensionsAt;
    var w := Wrapped(h, name);
    var s := Encode(w);
    Lengths(w);
    WrappedFields(h, name);
    WrapsTo49(s, |EncodeExtensions(h.extensions)|);
  }

  lemma WrapsTo49(s: Data, e: nat)
    requires IsClientHello(s) && |s| == 49 + 256 + e && s[43] == 0 && WordAt(s, 44) == 256
    requires s[46] == 0 && WordAt(s, 47) == 256 + e
    ensures ExtensionsAt(s) == Some(49)
  {
    hide WordAt, IsClientHello;
  }

  // ---------------------------------------------------------------- nothing else

  /** Whatever the packet: a name is found only in a handshake record of major version 3 or more, whose length field is
      the rest of the packet and which holds a ClientHello; the name has at most 254 bytes, which stand in the packet
      behind a zero type byte and their own length, and one byte at least follows them. */
  lemma NameOnlyInHello(data: Data)
    requires Sni(data).Some?
    ensures var name := Sni(data).value;
            && data[0] == 22 && data[1] >= 3 && 256 * (data[3] as int) + data[4] as int + 5 == |data| && data[5] == 1
            && |name| <= 254
            && exists i: nat :: NameStands(data, i, name)
  {
    var index := ExtensionsAt(data).value;
    var edata := data[index..];
    var at := ScanPlace(edata, 0);
    assert NameStands(data, index + at, Sni(data).value);
  }

  predicate NameStands(data: Data, i: nat, name: seq<u8>) {
    && i + 3 + |name| < |data| && data[i] == 0 && 256 * (data[i + 1] as int) + data[i + 2] as int == |name|
    && data[i + 3..i + 3 + |name|] == name
  }

  lemma ScanPlace(edata: Data, i: nat) returns (at: nat)
    requires Scan(edata, i).Some?
    ensures |Scan(edata, i).value| <= 254 && NameStands(edata, at, Scan(edata, i).value)
    decreases |edata| - i
  {
    if WordAt(edata, i) == TLS_EXTENSION_TYPE_SERVER_NAME {
      at := i + 6;
      var nameLen: nat := WordAt(edata, i + 7);
      assert edata[i + 7..i + 9] == [edata[i + 7], edata[i + 8]];
      assert NameAt(edata, i + 4) == Some(edata[i + 9..i + 9 + nameLen]);
    } else {
      at := ScanPlace(edata, i + 4 + WordAt(edata, i + 2));
    }
  }
}
