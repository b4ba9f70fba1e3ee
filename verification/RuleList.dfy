/** RedirectRule.kt: a rule list as text, its compilation and the rule that decides about a packet. */
module RuleList {
  import opened Text
  import opened Rules
  import opened RuleParser
  import opened RuleText
  import opened Numerals
  import Address
  import Wildcard

  /** `Server`, without the TLS flag, which `fromString` always leaves false. */
  datatype Server = Server(address: string, port: nat)

  datatype Rule = Rule(server: Server, condition: Expr)

  // ---------------------------------------------------------------- servers

  function PortNumber(s: string): Option<nat> {
    match ToIntOrNull(s)
    case None => None
    case Some(n) => if n < 1 || n > 65535 then None else Some(n)
  }

  function Ipv4AndPort(s: string): Option<Server> {
    var parts := Split2(s, ':');
    if |parts| != 2 then None
    else if PortNumber(parts[1]).None? then None
    else if !Address.IsValidIpv4(parts[0]) then None
    else Some(Server(parts[0], PortNumber(parts[1]).value))
  }

  /** Neither `s[0]` nor the character after the bracket is checked to be there. */
  function Ipv6AndPort(s: string): Result<Option<Server>> {
    if s == "" then Err(IndexOutOfBounds)
    else if s[0] != '[' then Ok(None)
    else
      var closing := IndexOf(s, ']');
      if closing == |s| then Ok(None)
      else if closing + 1 == |s| then Err(IndexOutOfBounds)
      else if s[closing + 1] != ':' then Ok(None)
      else if PortNumber(s[closing + 2..]).None? then Ok(None)
      else if closing == 0 || !Address.IsValidIpv6(s[1..closing]) then Ok(None)
      else Ok(Some(Server(s[1..closing], PortNumber(s[closing + 2..]).value)))
  }

  /** `Server.fromString`. */
  function ServerFromString(s: string): Result<Server> {
    if Ipv4AndPort(s).Some? then Ok(Ipv4AndPort(s).value)
    else
      match Ipv6AndPort(s)
      case Err(x) => Err(x)
      case Ok(None) => Err(InvalidServer(s))
      case Ok(Some(server)) => Ok(server)
  }

  predicate ValidServer(server: Server) {
    Address.IsValidIp(server.address) && 1 <= server.port <= 65535
  }

  lemma ServersAreValid(s: string)
    requires ServerFromString(s).Ok?
    ensures ValidServer(ServerFromString(s).value)
  {
    hide Address.IsValidIpv4, Address.IsValidIpv6, ToIntOrNull;
  }

  lemma NoBracketInIpv4(s: string)
    requires Ipv4AndPort(s).Some?
    ensures s != "" && s[0] != '['
  {
    hide Address.IsValidIpv4, ToIntOrNull;
    var i := IndexOf(s, ':');
    Ipv4Start(s[..i]);
  }

  /** A dotted quad starts with a digit or a sign. */
  lemma Ipv4Start(s: string)
    requires Address.IsValidIpv4(s)
    ensures s != "" && ('0' <= s[0] <= '9' || s[0] == '+' || s[0] == '-')
  {
    hide Number;
    var part := Split(s, '.')[0];
    assert Address.IsValidOctet(part);
    assert part[0] == s[0];
    assert part[0] >= '0' ==> DigitOf(part[0], 10).Some?;
  }

  /** The reader crashes instead of reporting a syntax error exactly for an empty server and for a
      bracketed text that ends with its first closing bracket. */
  lemma CrashesExactly(s: string)
    ensures ServerFromString(s) == Err(IndexOutOfBounds)
            <==> s == "" || (s[0] == '[' && IndexOf(s, ']') == |s| - 1)
  {
    hide Address.IsValidIpv4, Address.IsValidIpv6, ToIntOrNull, Split2;
    if Ipv4AndPort(s).Some? { NoBracketInIpv4(s); }
  }

  lemma PortReads(n: nat)
    requires 1 <= n <= 65535
    ensures PortNumber(Decimal(n)) == Some(n)
  {
    hide Number;
    DecimalReads(n);
    assert DigitOf(Decimal(n)[0], 10).Some?;
  }

  /** `Server.toString`. */
  function ServerText(server: Server): string {
    if ':' in server.address then "[" + server.address + "]:" + Decimal(server.port)
    else server.address + ":" + Decimal(server.port)
  }

  /** Printing a server and reading it again gives it back. */
  lemma ServerRoundTrip(server: Server)
    requires ValidServer(server)
    ensures ServerFromString(ServerText(server)) == Ok(server)
  {
    hide Address.IsValidIpv4, Address.IsValidIpv6, PortNumber, Decimal;
    var a, d := server.address, Decimal(server.port);
    PortReads(server.port);
    if Address.IsValidIpv4(a) {
      Ipv4Plain(a);
      var s := a + [':'] + d;
      assert ServerText(server) == s;
      IndexOfSeparator(a, ':', d);
      assert s[..|a|] == a && s[|a| + 1..] == d;
    } else {
      Ipv6Plain(a);
      BracketedReads(a, d);
    }
  }

  lemma BracketedReads(a: string, d: string)
    requires Address.IsValidIpv6(a) && ']' !in a && PortNumber(d).Some?
    ensures ServerFromString("[" + a + "]:" + d) == Ok(Server(a, PortNumber(d).value))
  {
    hide Address.IsValidIpv4, Address.IsValidIpv6, PortNumber;
    var s := "[" + a + "]:" + d;
    var head := "[" + a;
    assert s == head + [']'] + (":" + d);
    assert ']' !in head;
    IndexOfSeparator(head, ']', ":" + d);
    assert s[1..|head|] == a && s[|head| + 2..] == d && s[|head| + 1] == ':';
    if Ipv4AndPort(s).Some? { NoBracketInIpv4(s); }
  }

  // ---------------------------------------------------------------- lines and rules

  /** `Char.isWhitespace`. */
  predicate IsBlank(c: char) {
    || '\t' <= c <= '\r' || '\U{1c}' <= c <= ' '
    || c in "\U{a0}\U{1680}\U{2028}\U{2029}\U{202f}\U{205f}\U{3000}" || '\U{2000}' <= c <= '\U{200a}'
  }

  /** `s.trim()`. */
  function Trim(s: string): string
    decreases |s|
  {
    if s == "" then ""
    else if IsBlank(s[0]) then Trim(s[1..])
    else if IsBlank(s[|s| - 1]) then Trim(s[..|s| - 1])
    else s
  }

  /** `Rule.fromLine`, with the parse of the condition that the rule's initialiser makes. */
  function FromLine(line: string): Result<Rule> {
    var parts := Split2(line, '$');
    match ServerFromString(Trim(parts[0]))
    case Err(x) => Err(x)
    case Ok(server) =>
      match Parse(Tokenize(if |parts| > 1 then Trim(parts[1]) else ""))
      case Err(x) => Err(x)
      case Ok(condition) => Ok(Rule(server, condition))
  }

  /** What is left of a line without its comment. */
  function Code(line: string): string {
    Trim(Split2(line, '#')[0])
  }

  /** The rules of the lines, or the error of the first line that has one. */
  function RulesOf(lines: seq<string>): Result<seq<Rule>> {
    if lines == [] then Ok([])
    else if Code(lines[0]) == "" then RulesOf(lines[1..])
    else
      match FromLine(Code(lines[0]))
      case Err(x) => Err(x)
      case Ok(rule) =>
        match RulesOf(lines[1..])
        case Err(x) => Err(x)
        case Ok(rules) => Ok([rule] + rules)
  }

  /** `code.lines()`: a line ends with a line feed, a carriage return or both in that order. */
  function Lines(code: string): (lines: seq<string>)
    ensures lines != []
    decreases |code|
  {
    var i := LineLength(code);
    if i == |code| then [code]
    else if code[i] == '\r' && i + 1 < |code| && code[i + 1] == '\n' then [code[..i]] + Lines(code[i + 2..])
    else [code[..i]] + Lines(code[i + 1..])
  }

  function LineLength(code: string): (i: nat)
    ensures i <= |code| && (i < |code| ==> code[i] == '\n' || code[i] == '\r')
  {
    if code == "" || code[0] == '\n' || code[0] == '\r' then 0 else 1 + LineLength(code[1..])
  }

  /** `Rule.fromLines`; the exception of a line leaves the loop. */
  method FromLines(code: string) returns (out: Result<seq<Rule>>)
    ensures out == RulesOf(Lines(code))
  {
    hide FromLine, Lines, Trim, Split2;
    var lines := Lines(code);
    var result := [];
    assert lines[0..] == lines;
    PrependNone(RulesOf(lines));
    for i := 0 to |lines|
      invariant RulesOf(lines) == Prepend(result, RulesOf(lines[i..]))
    {
      assert lines[i..][1..] == lines[i + 1..];
      var line := lines[i];
      if line == "" {
        EmptyLine();
        continue;
      }
      var l := Code(line);
      if l == "" {
        continue;
      }
      var rule := FromLine(l);
      if rule.Err? {
        return Err(rule.error);
      }
      PrependOne(result, rule.value, RulesOf(lines[i + 1..]));
      result := result + [rule.value];
    }
    assert lines[|lines|..] == [] && result + [] == result;
    out := Ok(result);
  }

  function Prepend(rules: seq<Rule>, rest: Result<seq<Rule>>): Result<seq<Rule>> {
    match rest
    case Err(x) => Err(x)
    case Ok(more) => Ok(rules + more)
  }

  lemma PrependOne(rules: seq<Rule>, rule: Rule, rest: Result<seq<Rule>>)
    ensures Prepend(rules + [rule], rest) == Prepend(rules, Prepend([rule], rest))
  {
    if rest.Ok? { assert rules + [rule] + rest.value == rules + ([rule] + rest.value); }
  }

  lemma PrependNone(rest: Result<seq<Rule>>)
    ensures Prepend([], rest) == rest
  {
    if rest.Ok? { assert [] + rest.value == rest.value; }
  }

  lemma EmptyLine()
    ensures Code("") == ""
  {
  }

  // ---------------------------------------------------------------- printing rules

  predicate ValidRule(rule: Rule) {
    ValidServer(rule.server) && ValidExpr(rule.condition)
  }

  predicate ValidRules(rules: seq<Rule>) {
    forall i | 0 <= i < |rules| :: ValidRule(rules[i])
  }

  function RuleLine(rule: Rule): string
    requires ValidRule(rule)
  {
    ServerText(rule.server) + " $ " + Spaced(Parenthesised(rule.condition))
  }

  function RulesText(rules: seq<Rule>): string
    requires ValidRules(rules)
  {
    if rules == [] then "" else RuleLine(rules[0]) + "\n" + RulesText(rules[1..])
  }

  /** A character that ends neither a line nor its code, nor the server. */
  predicate IsInert(c: char) {
    c != '\n' && c != '\r' && c != '#' && c != '$'
  }

  predicate Inert(s: string) {
    forall i | 0 <= i < |s| :: IsInert(s[i])
  }

  predicate GoodToken(t: string) {
    IsToken(t) && Inert(t)
  }

  predicate GoodTokens(ts: seq<string>) {
    forall i | 0 <= i < |ts| :: GoodToken(ts[i])
  }

  lemma PlainIsToken(t: string)
    requires t != "" && Plain(t)
    ensures GoodToken(t)
  {
  }

  lemma RangeIsToken(s: string)
    requires Address.IsValidIpRange(s)
    ensures GoodToken(s)
  {
    hide Address.IsValidIpv4, Address.IsValidIpv6, ToIntOrNull, Plain, GoodToken;
    var i := IndexOf(s, '/');
    var a, b := s[..i], s[i + 1..];
    assert Split2(s, '/') == [a, b];
    if Address.IsValidIpv4(a) { Ipv4Plain(a); } else { Ipv6Plain(a); }
    NumberPlain(b);
    SlashPlain(a, b);
    assert s == a + "/" + b;
    PlainIsToken(s);
  }

  lemma SlashPlain(a: string, b: string)
    requires Plain(a) && Plain(b)
    ensures Plain(a + "/" + b)
  {
  }

  lemma AddressIsToken(s: string)
    requires Address.IsValidIp(s)
    ensures GoodToken(s)
  {
    hide Address.IsValidIpv4, Address.IsValidIpv6, Plain, GoodToken;
    if Address.IsValidIpv4(s) { Ipv4Plain(s); } else { Ipv6Plain(s); }
    PlainIsToken(s);
  }

  lemma WildcardIsToken(s: string)
    requires Wildcard.IsValidDomainWildcard(s)
    ensures GoodToken(s)
  {
    forall i | 0 <= i < |s| ensures IsPlainChar(s[i]) {
      assert Wildcard.IsWildcardChar(s[i]);
    }
    PlainIsToken(s);
  }

  lemma ValueIsToken(lhs: string, op: string, rhs: string)
    requires CheckComparison(lhs, op, rhs).Ok?
    ensures GoodToken(rhs)
  {
    hide GoodToken, Wildcard.IsValidDomainWildcard, Address.IsValidIpRange, Address.IsValidIp, ToIntOrNull, Plain;
    if lhs == "proto" {
      ProtocolIsToken(rhs);
    } else if lhs == "hostname" {
      WildcardIsToken(rhs);
    } else if IsNumberField(lhs) {
      NumberPlain(rhs);
      PlainIsToken(rhs);
    } else if op == "in" {
      RangeIsToken(rhs);
    } else {
      AddressIsToken(rhs);
    }
  }

  lemma ProtocolIsToken(s: string)
    requires s == "tcp" || s == "udp" || s == "icmp"
    ensures GoodToken(s)
  {
  }

  lemma FieldIsToken(s: string)
    requires s == "proto" || s == "hostname" || s == "daddr" || s == "saddr" || IsNumberField(s)
    ensures GoodToken(s)
  {
    hide GoodToken;
    PlainIsToken(s);
  }

  lemma OperatorIsToken(s: string)
    requires s == "=~" || s == "!~" || s == "in" || IsOrderOperator(s)
    ensures GoodToken(s)
  {
  }

  lemma MarkIsToken(s: string)
    requires s == "(" || s == ")" || s == "!" || s == "&&" || s == "||"
    ensures GoodToken(s)
  {
  }

  lemma LiteralIsToken(s: string)
    requires IsLiteral(s)
    ensures GoodToken(s)
  {
  }

  lemma AtomIsTokens(a: Atom)
    requires ValidAtom(a)
    ensures GoodTokens(AtomTokens(a))
  {
    hide GoodToken, Wildcard.IsValidDomainWildcard, Address.IsValidIpRange, Address.IsValidIp, ToIntOrNull;
    if a.Const? {
      LiteralIsToken(if a.value then "true" else "false");
    } else if a.Tls? {
      LiteralIsToken("tls");
    } else {
      ValueIsToken(a.lhs, a.op, a.rhs);
      FieldIsToken(a.lhs);
      OperatorIsToken(a.op);
    }
  }

  lemma {:induction false} ExprIsTokens(e: Expr)
    requires ValidExpr(e)
    ensures GoodTokens(ExprTokens(e)) && GoodTokens(Parenthesised(e))
  {
    hide GoodToken, ValidAtom, AtomTokens;
    MarkIsToken("(");
    MarkIsToken(")");
    match e
    case Not(x) => MarkIsToken("!"); ExprIsTokens(x);
    case And(x, y) => MarkIsToken("&&"); ExprIsTokens(x); ExprIsTokens(y);
    case Or(x, y) => MarkIsToken("||"); ExprIsTokens(x); ExprIsTokens(y);
    case Leaf(a) => AtomIsTokens(a);
  }

  lemma {:induction false} SpacedInert(ts: seq<string>)
    requires GoodTokens(ts)
    ensures Inert(Spaced(ts))
  {
    hide IsToken, Inert;
    if ts == [] {
      assert Inert("") by { NothingInert(); }
    } else if |ts| > 1 {
      assert GoodToken(ts[0]);
      SpacedInert(ts[1..]);
      SpaceInert(ts[0], Spaced(ts[1..]));
    } else {
      assert GoodToken(ts[0]);
    }
  }

  lemma NothingInert()
    ensures Inert("")
  {
  }

  lemma SpaceInert(a: string, b: string)
    requires Inert(a) && Inert(b)
    ensures Inert(a + " " + b)
  {
  }

  /** The last token ends the printed text. */
  lemma {:induction false} SpacedLast(ts: seq<string>)
    requires ts != [] && ts[|ts| - 1] != ""
    ensures var s := Spaced(ts); var t := ts[|ts| - 1]; s != "" && s[|s| - 1] == t[|t| - 1]
  {
    if |ts| > 1 { SpacedLast(ts[1..]); }
  }

  lemma SpacedFirst(ts: seq<string>)
    requires ts != [] && ts[0] != ""
    ensures Spaced(ts) != "" && Spaced(ts)[0] == ts[0][0]
  {
  }

  /** Text that starts and ends with a visible character is left alone by `trim`, and so is what it
      keeps of such text between spaces. */
  lemma TrimKeeps(s: string)
    requires s != "" && !IsBlank(s[0]) && !IsBlank(s[|s| - 1])
    ensures Trim(s) == s && Trim(s + " ") == s && Trim(" " + s) == s
  {
    assert (s + " ")[..|s|] == s && (" " + s)[1..] == s;
    assert IsBlank(' ');
  }

  lemma ServerChars(server: Server)
    requires ValidServer(server)
    ensures var s := ServerText(server); s != "" && !IsBlank(s[0]) && !IsBlank(s[|s| - 1]) && Inert(s)
  {
    hide Address.IsValidIpv4, Address.IsValidIpv6, Plain, Inert, ToIntOrNull;
    var a, d := server.address, Decimal(server.port);
    if Address.IsValidIpv4(a) { Ipv4Plain(a); Ipv4Start(a); } else { Ipv6Plain(a); }
    PortReads(server.port);
    DecimalReads(server.port);
    NumberPlain(d);
    assert !IsBlank(d[|d| - 1]) by { PlainNotBlank(d); }
    PlainInert(a, d);
  }

  lemma PlainNotBlank(d: string)
    requires d != "" && AllDigits(d, 10)
    ensures !IsBlank(d[|d| - 1])
  {
    assert DigitOf(d[|d| - 1], 10).Some?;
  }

  lemma PlainInert(a: string, d: string)
    requires Plain(a) && Plain(d)
    ensures Inert(a + ":" + d) && Inert("[" + a + "]:" + d)
  {
  }

  lemma NoSeparator(s: string, c: char)
    requires c !in s
    ensures Split2(s, c) == [s]
  {
  }

  lemma InertAvoids(s: string)
    requires Inert(s)
    ensures '\n' !in s && '\r' !in s && '#' !in s && '$' !in s
  {
  }

  /** One printed rule is read back. */
  lemma RuleRoundTrip(rule: Rule)
    requires ValidRule(rule)
    ensures FromLine(RuleLine(rule)) == Ok(rule)
  {
    hide ServerText, ServerFromString, Parenthesised, Parse, Tokenize, Trim, IsBlank, ValidServer, Inert, GoodToken;
    hide Spaced;
    var s, ts := ServerText(rule.server), Parenthesised(rule.condition);
    var c := Spaced(ts);
    ConditionText(rule.condition);
    ServerChars(rule.server);
    ServerRoundTrip(rule.server);
    InertAvoids(s);
    assert '$' !in s + " ";
    var line := RuleLine(rule);
    assert line == (s + " ") + ['$'] + (" " + c);
    IndexOfSeparator(s + " ", '$', " " + c);
    assert line[..|s| + 1] == s + " " && line[|s| + 2..] == " " + c;
    assert Split2(line, '$') == [s + " ", " " + c];
    TrimKeeps(s);
    TrimKeeps(c);
    PrintedParses(rule.condition);
  }

  lemma ConditionText(e: Expr)
    requires ValidExpr(e)
    ensures var c := Spaced(Parenthesised(e));
            c != "" && !IsBlank(c[0]) && !IsBlank(c[|c| - 1]) && Inert(c) && Tokenize(c) == Parenthesised(e)
  {
    hide ExprTokens, Inert, IsToken, ValidExpr, Tokenize;
    var ts := Parenthesised(e);
    assert ts[0] == "(" && ts[|ts| - 1] == ")";
    ExprIsTokens(e);
    SpacedTokens(ts);
    SpacedInert(ts);
    SpacedFirst(ts);
    SpacedLast(ts);
  }

  /** A printed rule is one line, all of it code. */
  lemma RuleLineIsCode(rule: Rule)
    requires ValidRule(rule)
    ensures var s := RuleLine(rule); '\n' !in s && '\r' !in s && Code(s) == s && s != ""
  {
    hide ServerText, Parenthesised, ValidExpr, ValidServer, Inert, Spaced, Tokenize, IsBlank, Trim;
    var s, c := ServerText(rule.server), Spaced(Parenthesised(rule.condition));
    ConditionText(rule.condition);
    ServerChars(rule.server);
    InertAvoids(s);
    InertAvoids(c);
    var line := RuleLine(rule);
    assert '#' !in line && '\n' !in line && '\r' !in line;
    NoSeparator(line, '#');
    assert line[0] == s[0] && line[|line| - 1] == c[|c| - 1];
    TrimKeeps(line);
  }

  lemma {:induction false} OneLine(s: string, rest: string)
    requires '\n' !in s && '\r' !in s
    ensures LineLength(s + "\n" + rest) == |s|
  {
    var t := s + "\n" + rest;
    if s != "" {
      assert t[0] == s[0] && t[1..] == s[1..] + "\n" + rest;
      assert forall c | c in s[1..] :: c in s;
      OneLine(s[1..], rest);
    }
  }

  lemma LinesOfOne(s: string, rest: string)
    requires '\n' !in s && '\r' !in s
    ensures Lines(s + "\n" + rest) == [s] + Lines(rest)
  {
    hide LineLength;
    var t := s + "\n" + rest;
    OneLine(s, rest);
    assert t[|s|] == '\n' && t[..|s|] == s && t[|s| + 1..] == rest;
  }

  /** Compiling a printed rule list gives the rules. */
  lemma {:induction false} RulesRoundTrip(rules: seq<Rule>)
    requires ValidRules(rules)
    ensures RulesOf(Lines(RulesText(rules))) == Ok(rules)
  {
    hide RuleLine, FromLine, Code, Lines, ValidRule;
    if rules == [] {
      NoLines();
    } else {
      var s, rest := RuleLine(rules[0]), RulesText(rules[1..]);
      RuleLineIsCode(rules[0]);
      RuleRoundTrip(rules[0]);
      RulesRoundTrip(rules[1..]);
      LinesOfOne(s, rest);
      assert ([s] + Lines(rest))[1..] == Lines(rest);
      assert [rules[0]] + rules[1..] == rules;
    }
  }

  lemma NoLines()
    ensures RulesOf(Lines("")) == Ok([])
  {
    assert Lines("") == [""];
    EmptyLine();
    assert [""][1..] == [];
  }

  // ---------------------------------------------------------------- deciding

  /** `rules.find { it.condition.eval(packetInfo) }?.server`. */
  function EvalRules(rules: seq<Rule>, p: PacketInfo): Option<Server>
    requires ValidRules(rules)
  {
    if rules == [] then None
    else if Eval(rules[0].condition, p) then Some(rules[0].server)
    else EvalRules(rules[1..], p)
  }

  /** The relation that an order operator names. */
  predicate Related(op: string, x: int, y: int) {
    || (op == "==" && x == y) || (op == "!=" && x != y)
    || (op == "<" && x < y) || (op == "<=" && x <= y)
    || (op == ">" && x > y) || (op == ">=" && x >= y)
  }

  /** The same text, another text, or agreement of the top bits of the addresses. */
  predicate AddressMatches(op: string, address: string, rhs: string) {
    (op == "==" && address == rhs) || (op == "!=" && address != rhs) || (op == "in" && Address.InRange(address, rhs))
  }

  /** The packet field a number comparison is about. */
  predicate IsField(lhs: string, p: PacketInfo, value: int) {
    (lhs == "dport" && value == p.dport) || (lhs == "sport" && value == p.sport) || (lhs == "uid" && value == p.uid)
  }

  /** What a comparison says of a packet, field by field. */
  ghost predicate Means(lhs: string, op: string, rhs: string, p: PacketInfo) {
    || (lhs == "proto" && ((op == "==" && p.proto == rhs) || (op == "!=" && p.proto != rhs)))
    || (lhs == "hostname" && ((op == "=~" && Wildcard.Glob(rhs, p.hostname))
                              || (op == "!~" && !Wildcard.Glob(rhs, p.hostname))))
    || (lhs == "daddr" && AddressMatches(op, p.daddr, rhs))
    || (lhs == "saddr" && AddressMatches(op, p.saddr, rhs))
    || exists x, y :: IsField(lhs, p, x) && ToIntOrNull(rhs) == Some(y) && Related(op, x, y)
  }

  /** What a condition says: Boolean connectives over comparisons. */
  ghost predicate Holds(e: Expr, p: PacketInfo)
    requires ValidExpr(e)
  {
    match e
    case Not(x) => !Holds(x, p)
    case And(x, y) => Holds(x, p) && Holds(y, p)
    case Or(x, y) => Holds(x, p) || Holds(y, p)
    case Leaf(Const(v)) => v
    case Leaf(Tls) => p.tls
    case Leaf(Compare(lhs, op, rhs)) => Means(lhs, op, rhs, p)
  }

  lemma PlainAtoms(v: bool, p: PacketInfo)
    ensures EvalAtom(Const(v), p) == v && EvalAtom(Tls, p) == p.tls
  {
  }

  lemma NumberMeans(lhs: string, op: string, rhs: string, p: PacketInfo)
    requires IsNumberField(lhs) && CheckComparison(lhs, op, rhs).Ok?
    ensures EvalAtom(Compare(lhs, op, rhs), p) <==> Means(lhs, op, rhs, p)
  {
    hide ToIntOrNull, Address.InRange, Wildcard.RegexMatches, Wildcard.Glob, Wildcard.IsValidDomainWildcard;
    var x := if lhs == "dport" then p.dport else if lhs == "sport" then p.sport else p.uid;
    var y := ToIntOrNull(rhs).value;
    assert IsField(lhs, p, x) && ToIntOrNull(rhs) == Some(y);
    assert Related(op, x, y) <==> CompareNumbers(op, x, y);
  }

  /** Every comparison is evaluated to what it means. */
  lemma AtomMeans(lhs: string, op: string, rhs: string, p: PacketInfo)
    requires CheckComparison(lhs, op, rhs).Ok?
    ensures EvalAtom(Compare(lhs, op, rhs), p) <==> Means(lhs, op, rhs, p)
  {
    hide ToIntOrNull, Address.InRange, Wildcard.RegexMatches, Wildcard.Glob, Wildcard.IsValidDomainWildcard;
    if IsNumberField(lhs) {
      NumberMeans(lhs, op, rhs, p);
    } else if lhs == "hostname" {
      Wildcard.WildcardMeaning(rhs, p.hostname);
    }
  }

  /** Which comparisons there are. */
  lemma ComparisonAccepted(lhs: string, op: string, rhs: string)
    ensures CheckComparison(lhs, op, rhs).Ok? <==>
              || (lhs == "proto" && op in {"==", "!="} && rhs in {"tcp", "udp", "icmp"})
              || (lhs == "hostname" && op in {"=~", "!~"} && Wildcard.IsValidDomainWildcard(rhs))
              || (lhs in {"daddr", "saddr"} && op == "in" && Address.IsValidIpRange(rhs))
              || (lhs in {"daddr", "saddr"} && op in {"==", "!="} && Address.IsValidIp(rhs))
              || (lhs in {"dport", "sport", "uid"} && op in {"==", "!=", "<", "<=", ">", ">="}
                  && ToIntOrNull(rhs).Some?)
    ensures CheckComparison(lhs, op, rhs).Ok? ==> CheckComparison(lhs, op, rhs) == Ok(Compare(lhs, op, rhs))
  {
    hide ToIntOrNull, Address.IsValidIpRange, Address.IsValidIp, Wildcard.IsValidDomainWildcard;
  }

  lemma {:induction false} EvalMeansHolds(e: Expr, p: PacketInfo)
    requires ValidExpr(e)
    ensures Eval(e, p) <==> Holds(e, p)
  {
    hide CheckComparison, EvalAtom, Means;
    match e
    case Not(x) => EvalMeansHolds(x, p);
    case And(x, y) => EvalMeansHolds(x, p); EvalMeansHolds(y, p);
    case Or(x, y) => EvalMeansHolds(x, p); EvalMeansHolds(y, p);
    case Leaf(Const(v)) => PlainAtoms(v, p);
    case Leaf(Tls) => PlainAtoms(true, p);
    case Leaf(Compare(lhs, op, rhs)) => AtomMeans(lhs, op, rhs, p);
  }

  /** Rule `i` is the first whose condition holds. */
  ghost predicate First(rules: seq<Rule>, p: PacketInfo, i: nat)
    requires ValidRules(rules)
  {
    && i < |rules| && Holds(rules[i].condition, p)
    && forall j | 0 <= j < i :: !Holds(rules[j].condition, p)
  }

  lemma {:induction false} EvalIsFirst(rules: seq<Rule>, p: PacketInfo)
    requires ValidRules(rules)
    ensures match EvalRules(rules, p)
            case None => forall i | 0 <= i < |rules| :: !Holds(rules[i].condition, p)
            case Some(server) => exists i: nat :: First(rules, p, i) && rules[i].server == server
  {
    hide Holds, Eval, ValidServer, ValidExpr;
    if rules != [] {
      assert ValidRule(rules[0]);
      EvalMeansHolds(rules[0].condition, p);
      EvalIsFirst(rules[1..], p);
      if EvalRules(rules, p).None? {
        assert forall i | 1 <= i < |rules| :: rules[i] == rules[1..][i - 1];
      } else if Holds(rules[0].condition, p) {
        assert First(rules, p, 0);
      } else {
        var i: nat :| First(rules[1..], p, i) && rules[1..][i].server == EvalRules(rules, p).value;
        assert forall j | 1 <= j <= i :: rules[j] == rules[1..][j - 1];
        assert First(rules, p, i + 1);
      }
    }
  }

  /** Printing any rule list and compiling the text gives rules that answer, for every packet, the server
      of the first rule whose condition holds, or none. */
  lemma PrintedRulesDecide(rules: seq<Rule>, p: PacketInfo)
    requires ValidRules(rules)
    ensures var compiled := RulesOf(Lines(RulesText(rules)));
            && compiled.Ok? && ValidRules(compiled.value)
            && match EvalRules(compiled.value, p)
               case None => forall i | 0 <= i < |rules| :: !Holds(rules[i].condition, p)
               case Some(server) => exists i: nat :: First(rules, p, i) && rules[i].server == server
  {
    hide RulesOf, Lines, RulesText, EvalRules, Holds, ValidRules;
    RulesRoundTrip(rules);
    EvalIsFirst(rules, p);
  }
}
