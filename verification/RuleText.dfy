/** RedirectRule.kt: from rule text to rules and back. */
module RuleText {
  import opened Text
  import opened Rules
  import opened RuleParser
  import Address

  // ---------------------------------------------------------------- the tokenizer

  /** `\s` of java.util.regex. */
  predicate IsSpace(c: char) {
    c == ' ' || '\t' <= c <= '\r'
  }

  predicate IsWordChar(c: char) {
    !IsSpace(c) && c !in "()=!<>&|"
  }

  predicate IsPair(s: string) {
    s == "!~" || s == "=~" || s == "==" || s == "!=" || s == "<=" || s == ">=" || s == "||" || s == "&&"
  }

  predicate IsSingle(c: char) {
    c in "()!<>="
  }

  function WordLength(s: string): (n: nat)
    ensures n <= |s| && forall i | 0 <= i < n :: IsWordChar(s[i])
    ensures n < |s| ==> !IsWordChar(s[n])
  {
    if s == "" || !IsWordChar(s[0]) then 0 else 1 + WordLength(s[1..])
  }

  /** The length of the match of the token expression at the start of `s`, 0 if there is none; the
      alternatives are tried in order. */
  function TokenLength(s: string): (n: nat)
    ensures n <= |s|
  {
    if s == "" then 0
    else if |s| >= 2 && IsPair(s[..2]) then 2
    else if IsSingle(s[0]) then 1
    else WordLength(s)
  }

  /** `regex.findAll(input)`: where nothing matches, one character is passed over. */
  function Tokenize(s: string): seq<string>
    decreases |s|
  {
    if s == "" then []
    else
      var n := TokenLength(s);
      if n == 0 then Tokenize(s[1..]) else [s[..n]] + Tokenize(s[n..])
  }

  /** The texts that come back as one token when a space follows. */
  predicate IsToken(t: string) {
    || IsPair(t)
    || (|t| == 1 && IsSingle(t[0]))
    || (t != "" && forall i | 0 <= i < |t| :: IsWordChar(t[i]))
  }

  function Spaced(ts: seq<string>): string {
    if ts == [] then "" else if |ts| == 1 then ts[0] else ts[0] + " " + Spaced(ts[1..])
  }

  lemma TokenAlone(t: string, rest: string)
    requires IsToken(t) && (rest == "" || rest[0] == ' ')
    ensures TokenLength(t + rest) == |t|
  {
    var s := t + rest;
    assert s[..|t|] == t;
    if forall i | 0 <= i < |t| :: IsWordChar(t[i]) {
      assert forall i | 0 <= i < |t| :: s[i] == t[i];
      var n := WordLength(s);
      assert n < |s| ==> !IsWordChar(s[n]);
      assert rest != "" ==> s[|t|] == ' ';
      NoPair(s, t);
    } else if |t| == 1 {
      SingleNoPair(s, t);
    }
  }

  lemma NoPair(s: string, t: string)
    requires t != "" && |t| <= |s| && s[..|t|] == t && forall i | 0 <= i < |t| :: IsWordChar(t[i])
    ensures !(|s| >= 2 && IsPair(s[..2])) && !IsSingle(s[0])
  {
    assert s[0] == t[0] && IsWordChar(s[0]);
    if |s| >= 2 { assert s[..2][0] == s[0]; }
  }

  lemma SingleNoPair(s: string, t: string)
    requires |t| == 1 <= |s| && s[0] == t[0] && IsSingle(t[0]) && (|s| > 1 ==> s[1] == ' ')
    ensures !(|s| >= 2 && IsPair(s[..2]))
  {
    if |s| >= 2 { assert s[..2] == [s[0], s[1]]; }
  }

  /** Tokens set apart by spaces are read back one by one. */
  lemma {:induction false} SpacedTokens(ts: seq<string>)
    requires forall i | 0 <= i < |ts| :: IsToken(ts[i])
    ensures Tokenize(Spaced(ts)) == ts
  {
    hide IsToken, TokenLength;
    if ts != [] {
      var t := ts[0];
      assert t != "" by { TokenNonempty(t); }
      if |ts| == 1 {
        TokenAlone(t, "");
        assert t + "" == t;
      } else {
        var rest := " " + Spaced(ts[1..]);
        TokenAlone(t, rest);
        assert Spaced(ts) == t + rest && (t + rest)[..|t|] == t && (t + rest)[|t|..] == rest;
        SpaceSkipped(Spaced(ts[1..]));
        SpacedTokens(ts[1..]);
      }
    }
  }

  lemma TokenNonempty(t: string)
    requires IsToken(t)
    ensures t != ""
  {
  }

  lemma SpaceSkipped(s: string)
    ensures Tokenize(" " + s) == Tokenize(s)
  {
    var r := " " + s;
    assert r[1..] == s && !IsWordChar(r[0]);
    if |r| >= 2 { assert r[..2][0] == ' '; }
  }

  // ---------------------------------------------------------------- printing conditions

  function AtomTokens(a: Atom): seq<string> {
    match a
    case Const(v) => [if v then "true" else "false"]
    case Tls => ["tls"]
    case Compare(lhs, op, rhs) => [lhs, op, rhs]
  }

  function Parenthesised(e: Expr): seq<string>
    decreases e, 1
  {
    ["("] + ExprTokens(e) + [")"]
  }

  /** Every operand in parentheses. */
  function ExprTokens(e: Expr): seq<string>
    decreases e, 0
  {
    match e
    case Not(x) => ["!"] + Parenthesised(x)
    case And(x, y) => Parenthesised(x) + ["&&"] + Parenthesised(y)
    case Or(x, y) => Parenthesised(x) + ["||"] + Parenthesised(y)
    case Leaf(a) => AtomTokens(a)
  }

  function AtomTree(a: Atom): Unary {
    match a
    case Const(v) => Word(if v then "true" else "false")
    case Tls => Word("tls")
    case Compare(lhs, op, rhs) => Triple(lhs, op, rhs)
  }

  function ExprTree(e: Expr): OrTree {
    match e
    case Not(x) => JustAnd(JustUnary(Bang(Paren(ExprTree(x)))))
    case And(x, y) => JustAnd(AndTree(JustUnary(Paren(ExprTree(x))), Paren(ExprTree(y))))
    case Or(x, y) => OrTree(JustAnd(JustUnary(Paren(ExprTree(x)))), JustUnary(Paren(ExprTree(y))))
    case Leaf(a) => JustAnd(JustUnary(AtomTree(a)))
  }

  lemma ParenYield(o: OrTree)
    ensures UnaryYield(Paren(o)) == ["("] + OrYield(o) + [")"]
    ensures OrYield(JustAnd(JustUnary(Paren(o)))) == ["("] + OrYield(o) + [")"]
    ensures AndYield(JustUnary(Paren(o))) == ["("] + OrYield(o) + [")"]
    ensures OrWf(o) ==> OrWf(JustAnd(JustUnary(Paren(o)))) && OrExpr(JustAnd(JustUnary(Paren(o)))) == OrExpr(o)
  {
    var u := Paren(o);
    assert AndYield(JustUnary(u)) == UnaryYield(u);
    assert OrYield(JustAnd(JustUnary(u))) == AndYield(JustUnary(u));
    if OrWf(o) {
      assert UnaryWf(u) && AndWf(JustUnary(u));
      assert AndExpr(JustUnary(u)) == UnaryExpr(u) == OrExpr(o);
    }
  }

  lemma {:induction false} TreeOfPrinted(e: Expr)
    requires ValidExpr(e)
    ensures OrWf(ExprTree(e)) && OrYield(ExprTree(e)) == ExprTokens(e) && OrExpr(ExprTree(e)) == e
  {
    hide CheckComparison;
    match e
    case Not(x) =>
      TreeOfPrinted(x);
      TreeOfNot(ExprTree(x));
    case And(x, y) =>
      TreeOfPrinted(x);
      TreeOfPrinted(y);
      TreeOfAnd(ExprTree(x), ExprTree(y));
    case Or(x, y) =>
      TreeOfPrinted(x);
      TreeOfPrinted(y);
      TreeOfOr(ExprTree(x), ExprTree(y));
    case Leaf(a) =>
      if a.Compare? { ComparisonKept(a.lhs, a.op, a.rhs); }
      TreeOfAtom(a);
  }

  lemma TreeOfAtom(a: Atom)
    requires ValidAtom(a)
    ensures var t := JustAnd(JustUnary(AtomTree(a)));
            OrWf(t) && OrYield(t) == AtomTokens(a) && OrExpr(t) == Leaf(a)
  {
    hide CheckComparison;
    var u := AtomTree(a);
    assert UnaryWf(u) && UnaryExpr(u) == Leaf(a) && UnaryYield(u) == AtomTokens(a);
    assert AndWf(JustUnary(u)) && AndExpr(JustUnary(u)) == Leaf(a) && AndYield(JustUnary(u)) == AtomTokens(a);
  }

  lemma TreeOfNot(o: OrTree)
    requires OrWf(o)
    ensures var t := JustAnd(JustUnary(Bang(Paren(o))));
            OrWf(t) && OrYield(t) == ["!"] + (["("] + OrYield(o) + [")"]) && OrExpr(t) == Not(OrExpr(o))
  {
    ParenYield(o);
    var u := Bang(Paren(o));
    assert UnaryWf(Paren(o)) && UnaryExpr(Paren(o)) == OrExpr(o);
    assert UnaryWf(u) && UnaryExpr(u) == Not(OrExpr(o)) && UnaryYield(u) == ["!"] + UnaryYield(Paren(o));
    assert AndWf(JustUnary(u)) && AndExpr(JustUnary(u)) == UnaryExpr(u) && AndYield(JustUnary(u)) == UnaryYield(u);
  }

  lemma TreeOfAnd(o: OrTree, p: OrTree)
    requires OrWf(o) && OrWf(p)
    ensures var t := JustAnd(AndTree(JustUnary(Paren(o)), Paren(p)));
            && OrWf(t) && OrExpr(t) == And(OrExpr(o), OrExpr(p))
            && OrYield(t) == ["("] + OrYield(o) + [")"] + ["&&"] + (["("] + OrYield(p) + [")"])
  {
    ParenYield(o);
    ParenYield(p);
    var a := AndTree(JustUnary(Paren(o)), Paren(p));
    assert UnaryWf(Paren(p)) && UnaryExpr(Paren(p)) == OrExpr(p);
    assert AndWf(JustUnary(Paren(o))) && AndExpr(JustUnary(Paren(o))) == OrExpr(o) by {
      assert UnaryWf(Paren(o)) && UnaryExpr(Paren(o)) == OrExpr(o);
    }
    assert AndWf(a) && AndExpr(a) == And(OrExpr(o), OrExpr(p));
    assert AndYield(a) == AndYield(JustUnary(Paren(o))) + ["&&"] + UnaryYield(Paren(p));
  }

  lemma TreeOfOr(o: OrTree, p: OrTree)
    requires OrWf(o) && OrWf(p)
    ensures var t := OrTree(JustAnd(JustUnary(Paren(o))), JustUnary(Paren(p)));
            && OrWf(t) && OrExpr(t) == Or(OrExpr(o), OrExpr(p))
            && OrYield(t) == ["("] + OrYield(o) + [")"] + ["||"] + (["("] + OrYield(p) + [")"])
  {
    ParenYield(o);
    ParenYield(p);
    var t := OrTree(JustAnd(JustUnary(Paren(o))), JustUnary(Paren(p)));
    assert AndWf(JustUnary(Paren(p))) && AndExpr(JustUnary(Paren(p))) == OrExpr(p) by {
      assert UnaryWf(Paren(p)) && UnaryExpr(Paren(p)) == OrExpr(p);
    }
    assert OrYield(t) == OrYield(JustAnd(JustUnary(Paren(o)))) + ["||"] + AndYield(JustUnary(Paren(p)));
  }

  /** Parsing a printed condition gives it back. */
  lemma PrintedParses(e: Expr)
    requires ValidExpr(e)
    ensures Parse(Parenthesised(e)) == Ok(e)
  {
    hide ParseOr, ExprTokens, OrWf, OrYield, OrExpr;
    TreeOfPrinted(e);
    ParenYield(ExprTree(e));
    var t := JustAnd(JustUnary(Paren(ExprTree(e))));
    var ts := Parenthesised(e);
    assert ts[0..|ts|] == ts;
    ParserIsGrammar(ts, e, |ts|);
  }

  // ---------------------------------------------------------------- the characters of printed text

  /** A word character that is none of `$`, `#` and the line ends. */
  predicate IsPlainChar(c: char) {
    IsWordChar(c) && c != '$' && c != '#'
  }

  predicate Plain(s: string) {
    forall i | 0 <= i < |s| :: IsPlainChar(s[i])
  }

  lemma {:induction false} JoinPlain(parts: seq<string>, c: char)
    requires parts != [] && IsPlainChar(c) && forall i | 0 <= i < |parts| :: Plain(parts[i])
    ensures Plain(Join(parts, c))
  {
    if |parts| > 1 { JoinPlain(parts[1..], c); }
  }

  lemma NumberPlain(s: string)
    requires ToIntOrNull(s).Some?
    ensures s != "" && Plain(s) && forall i | 0 <= i < |s| :: s[i] != ':' && s[i] != ']' && s[i] != '/'
  {
    hide Number;
    if s[0] < '0' {
      assert s[0] == '-' || s[0] == '+';
      assert forall i | 1 <= i < |s| :: s[i] == s[1..][i - 1] && DigitOf(s[1..][i - 1], 10).Some?;
    } else {
      assert forall i | 0 <= i < |s| :: DigitOf(s[i], 10).Some?;
    }
  }

  lemma {:induction false} JoinAvoids(parts: seq<string>, c: char, x: char)
    requires parts != [] && c != x && forall i | 0 <= i < |parts| :: x !in parts[i]
    ensures x !in Join(parts, c)
  {
    if |parts| > 1 { JoinAvoids(parts[1..], c, x); }
  }

  lemma Ipv4Plain(s: string)
    requires Address.IsValidIpv4(s)
    ensures s != "" && Plain(s) && ':' !in s && ']' !in s
  {
    hide Split, Join, ToIntOrNull;
    var parts := Split(s, '.');
    SplitJoins(s, '.');
    forall i | 0 <= i < |parts|
      ensures Plain(parts[i]) && ':' !in parts[i] && ']' !in parts[i]
    {
      assert Address.IsValidOctet(parts[i]);
      NumberPlain(parts[i]);
    }
    JoinPlain(parts, '.');
    JoinAvoids(parts, '.', ':');
    JoinAvoids(parts, '.', ']');
  }

  lemma HexPlain(s: string)
    requires AllDigits(s, 16)
    ensures Plain(s) && ']' !in s
  {
    assert forall i | 0 <= i < |s| :: DigitOf(s[i], 16).Some?;
  }

  lemma GroupsPlain(s: string)
    requires Address.AreAllBytes(s)
    ensures Plain(s) && ']' !in s
  {
    hide Split, Join;
    if s != "" {
      var parts := Split(s, ':');
      SplitJoins(s, ':');
      forall i | 0 <= i < |parts|
        ensures Plain(parts[i]) && ']' !in parts[i]
      {
        assert Address.IsHexGroup(parts[i]);
        HexPlain(parts[i]);
      }
      JoinPlain(parts, ':');
      JoinAvoids(parts, ':', ']');
    }
  }

  /** The pieces around a gap make up the text. */
  lemma GapPieces(s: string)
    ensures |Address.SplitGap(s)| == 1 ==> Address.SplitGap(s) == [s]
    ensures |Address.SplitGap(s)| == 2 ==> s == Address.SplitGap(s)[0] + "::" + Address.SplitGap(s)[1]
  {
    hide Address.IndexOfGap;
    var i := Address.IndexOfGap(s);
    if i < |s| {
      Address.OnePart(s[i + 2..]);
      assert s[i..] == s[i..i + 2] + s[i + 2..];
      assert s == s[..i] + s[i..];
    }
  }

  lemma Ipv6Plain(s: string)
    requires Address.IsValidIpv6(s)
    ensures s != "" && Plain(s) && ':' in s && ']' !in s
  {
    hide Address.SplitGap, Address.AreAllBytes, Plain;
    Address.ValidIpv6Shape(s);
    GapPieces(s);
    GroupsPlain(Address.SplitGap(s)[0]);
    if |Address.SplitGap(s)| == 2 {
      var a, b := Address.SplitGap(s)[0], Address.SplitGap(s)[1];
      GroupsPlain(b);
      PlainAround(a, b);
    }
    if ':' !in s { CountNone(s, ':'); }
    if s == "::" { assert s[0] == ':'; }
  }

  lemma PlainAround(a: string, b: string)
    requires Plain(a) && Plain(b)
    ensures Plain(a + "::" + b)
  {
  }
}
