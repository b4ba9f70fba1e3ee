/** RedirectRule.kt: conditions, their evaluation, and the checks a comparison passes before it becomes
    one. */
module Rules {
  import opened Text
  import Address
  import Wildcard

  datatype PacketInfo = PacketInfo(
    proto: string, hostname: string, daddr: string, saddr: string, dport: int, sport: int, tls: bool, uid: int)

  /** Atoms are kept as the tokens they were read from instead of closures. */
  datatype Atom = Const(value: bool) | Tls | Compare(lhs: string, op: string, rhs: string)

  datatype Expr = Not(e: Expr) | And(l: Expr, r: Expr) | Or(l: Expr, r: Expr) | Leaf(a: Atom)

  /** The subclasses of SyntaxError, and the two messages without a class of their own. */
  datatype Error =
    | UnexpectedEnd
    | InvalidProtocol(got: string)
    | InvalidOperator(got: string)
    | InvalidHostnameWildcard(got: string)
    | InvalidIpRange(got: string)
    | InvalidIpAddress(got: string)
    | InvalidPort(got: string)
    | UnknownField(got: string)
    | InvalidServer(got: string)
    | IndexOutOfBounds

  datatype Result<+T> = Ok(value: T) | Err(error: Error)

  // ---------------------------------------------------------------- comparisons

  predicate IsNumberField(lhs: string) { lhs == "dport" || lhs == "sport" || lhs == "uid" }

  predicate IsOrderOperator(op: string) {
    op == "==" || op == "!=" || op == "<" || op == "<=" || op == ">" || op == ">="
  }

  /** `parseComparison` and the functions it calls, up to the closure: which error, if any. */
  function CheckComparison(lhs: string, op: string, rhs: string): Result<Atom> {
    if lhs == "proto" then
      if rhs != "tcp" && rhs != "udp" && rhs != "icmp" then Err(InvalidProtocol(rhs))
      else if op == "==" || op == "!=" then Ok(Compare(lhs, op, rhs))
      else Err(InvalidOperator(op))
    else if lhs == "hostname" then
      if !Wildcard.IsValidDomainWildcard(rhs) then Err(InvalidHostnameWildcard(rhs))
      else if op == "=~" || op == "!~" then Ok(Compare(lhs, op, rhs))
      else Err(InvalidOperator(op))
    else if lhs == "daddr" || lhs == "saddr" then
      if op == "in" then
        if Address.IsValidIpRange(rhs) then Ok(Compare(lhs, op, rhs)) else Err(InvalidIpRange(rhs))
      else if op == "==" || op == "!=" then
        if Address.IsValidIp(rhs) then Ok(Compare(lhs, op, rhs)) else Err(InvalidIpAddress(rhs))
      else Err(InvalidOperator(op))
    else if IsNumberField(lhs) then
      if ToIntOrNull(rhs).None? then Err(InvalidPort(rhs))
      else if IsOrderOperator(op) then Ok(Compare(lhs, op, rhs))
      else Err(InvalidOperator(op))
    else Err(UnknownField(lhs))
  }

  // ---------------------------------------------------------------- evaluation

  predicate ValidAtom(a: Atom) {
    a.Compare? ==> CheckComparison(a.lhs, a.op, a.rhs).Ok?
  }

  predicate ValidExpr(e: Expr) {
    match e
    case Not(x) => ValidExpr(x)
    case And(x, y) => ValidExpr(x) && ValidExpr(y)
    case Or(x, y) => ValidExpr(x) && ValidExpr(y)
    case Leaf(a) => ValidAtom(a)
  }

  predicate CompareNumbers(op: string, x: int, y: int) {
    if op == "==" then x == y
    else if op == "!=" then x != y
    else if op == "<" then x < y
    else if op == "<=" then x <= y
    else if op == ">" then x > y
    else x >= y
  }

  predicate CompareAddresses(op: string, x: string, rhs: string) {
    if op == "==" then x == rhs else if op == "!=" then x != rhs else Address.InRange(x, rhs)
  }

  predicate EvalAtom(a: Atom, p: PacketInfo)
    requires ValidAtom(a)
  {
    match a
    case Const(v) => v
    case Tls => p.tls
    case Compare(lhs, op, rhs) =>
      if lhs == "proto" then (p.proto == rhs) == (op == "==")
      else if lhs == "hostname" then Wildcard.RegexMatches(rhs, p.hostname) == (op == "=~")
      else if lhs == "daddr" then CompareAddresses(op, p.daddr, rhs)
      else if lhs == "saddr" then CompareAddresses(op, p.saddr, rhs)
      else CompareNumbers(op, if lhs == "dport" then p.dport else if lhs == "sport" then p.sport else p.uid,
                          ToIntOrNull(rhs).value)
  }

  predicate Eval(e: Expr, p: PacketInfo)
    requires ValidExpr(e)
  {
    match e
    case Not(x) => !Eval(x, p)
    case And(x, y) => Eval(x, p) && Eval(y, p)
    case Or(x, y) => Eval(x, p) || Eval(y, p)
    case Leaf(a) => EvalAtom(a, p)
  }
}
