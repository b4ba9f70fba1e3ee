/** The recursive-descent parser of RedirectRule.kt: as functions of the position, as the class that
    moves `pos`, and against the grammar it is meant to accept. */
module RuleParser {
  import opened Rules

  datatype Parsed = Got(e: Expr, pos: nat) | Failed(error: Error)

  predicate At(ts: seq<string>, p: nat, token: string) {
    p < |ts| && ts[p] == token
  }

  function LiteralAtom(token: string): Atom
    requires IsLiteral(token)
  {
    if token == "tls" then Tls else Const(token == "true")
  }

  predicate IsLiteral(token: string) {
    token == "true" || token == "false" || token == "tls"
  }

  // ---------------------------------------------------------------- the parser as functions

  function ParseOr(ts: seq<string>, p: nat): (r: Parsed)
    ensures r.Got? ==> p < r.pos <= |ts|
    decreases |ts| - p, 4
  {
    match ParseAnd(ts, p)
    case Failed(x) => Failed(x)
    case Got(e, q) => OrLoop(ts, e, q)
  }

  function OrLoop(ts: seq<string>, left: Expr, p: nat): (r: Parsed)
    requires p <= |ts|
    ensures r.Got? ==> p <= r.pos <= |ts|
    decreases |ts| - p, 5
  {
    if !At(ts, p, "||") then Got(left, p)
    else
      match ParseAnd(ts, p + 1)
      case Failed(x) => Failed(x)
      case Got(e, q) => OrLoop(ts, Or(left, e), q)
  }

  function ParseAnd(ts: seq<string>, p: nat): (r: Parsed)
    ensures r.Got? ==> p < r.pos <= |ts|
    decreases |ts| - p, 3
  {
    match ParseUnary(ts, p)
    case Failed(x) => Failed(x)
    case Got(e, q) => AndLoop(ts, e, q)
  }

  function AndLoop(ts: seq<string>, left: Expr, p: nat): (r: Parsed)
    requires p <= |ts|
    ensures r.Got? ==> p <= r.pos <= |ts|
    decreases |ts| - p, 4
  {
    if !At(ts, p, "&&") then Got(left, p)
    else
      match ParseUnary(ts, p + 1)
      case Failed(x) => Failed(x)
      case Got(e, q) => AndLoop(ts, And(left, e), q)
  }

  function ParseUnary(ts: seq<string>, p: nat): (r: Parsed)
    ensures r.Got? ==> p < r.pos <= |ts|
    decreases |ts| - p, 2
  {
    if At(ts, p, "!") then
      match ParseUnary(ts, p + 1)
      case Failed(x) => Failed(x)
      case Got(e, q) => Got(Not(e), q)
    else ParsePrimary(ts, p)
  }

  function ParsePrimary(ts: seq<string>, p: nat): (r: Parsed)
    ensures r.Got? ==> p < r.pos <= |ts|
    decreases |ts| - p, 1
  {
    if At(ts, p, "(") then
      match ParseOr(ts, p + 1)
      case Failed(x) => Failed(x)
      case Got(e, q) => if At(ts, q, ")") then Got(e, q + 1) else Failed(UnexpectedEnd)
    else ParseAtom(ts, p)
  }

  function ParseAtom(ts: seq<string>, p: nat): (r: Parsed)
    ensures r.Got? ==> p < r.pos <= |ts|
  {
    if p >= |ts| then Failed(UnexpectedEnd)
    else if IsLiteral(ts[p]) then Got(Leaf(LiteralAtom(ts[p])), p + 1)
    else if p + 2 >= |ts| then Failed(UnexpectedEnd)
    else
      match CheckComparison(ts[p], ts[p + 1], ts[p + 2])
      case Err(x) => Failed(x)
      case Ok(a) => Got(Leaf(a), p + 3)
  }

  /** `Parser.parse` on a whole token list: no tokens mean true, tokens left over are ignored. */
  function Parse(ts: seq<string>): Result<Expr> {
    if ts == [] then Ok(Leaf(Const(true)))
    else
      match ParseOr(ts, 0)
      case Failed(x) => Err(x)
      case Got(e, _) => Ok(e)
  }

  // ---------------------------------------------------------------- the grammar

  /** or := or "||" and | and;  and := and "&&" unary | unary;  unary := "!" unary | primary;
      primary := "(" or ")" | literal | field operator value */
  datatype OrTree = OrTree(l: OrTree, r: AndTree) | JustAnd(t: AndTree)
  datatype AndTree = AndTree(l: AndTree, r: Unary) | JustUnary(u: Unary)
  datatype Unary =
    | Bang(u: Unary) | Paren(o: OrTree) | Word(token: string) | Triple(lhs: string, op: string, rhs: string)

  function OrYield(t: OrTree): seq<string> {
    match t
    case OrTree(l, r) => OrYield(l) + ["||"] + AndYield(r)
    case JustAnd(a) => AndYield(a)
  }

  function AndYield(t: AndTree): seq<string> {
    match t
    case AndTree(l, r) => AndYield(l) + ["&&"] + UnaryYield(r)
    case JustUnary(u) => UnaryYield(u)
  }

  function UnaryYield(t: Unary): seq<string> {
    match t
    case Bang(u) => ["!"] + UnaryYield(u)
    case Paren(o) => ["("] + OrYield(o) + [")"]
    case Word(w) => [w]
    case Triple(lhs, op, rhs) => [lhs, op, rhs]
  }

  /** The terminals are literals and comparisons that pass their checks. */
  predicate OrWf(t: OrTree) {
    match t
    case OrTree(l, r) => OrWf(l) && AndWf(r)
    case JustAnd(a) => AndWf(a)
  }

  predicate AndWf(t: AndTree) {
    match t
    case AndTree(l, r) => AndWf(l) && UnaryWf(r)
    case JustUnary(u) => UnaryWf(u)
  }

  predicate UnaryWf(t: Unary) {
    match t
    case Bang(u) => UnaryWf(u)
    case Paren(o) => OrWf(o)
    case Word(w) => IsLiteral(w)
    case Triple(lhs, op, rhs) => CheckComparison(lhs, op, rhs).Ok?
  }

  function OrExpr(t: OrTree): Expr
    requires OrWf(t)
  {
    match t
    case OrTree(l, r) => Or(OrExpr(l), AndExpr(r))
    case JustAnd(a) => AndExpr(a)
  }

  function AndExpr(t: AndTree): Expr
    requires AndWf(t)
  {
    match t
    case AndTree(l, r) => And(AndExpr(l), UnaryExpr(r))
    case JustUnary(u) => UnaryExpr(u)
  }

  function UnaryExpr(t: Unary): Expr
    requires UnaryWf(t)
  {
    match t
    case Bang(u) => Not(UnaryExpr(u))
    case Paren(o) => OrExpr(o)
    case Word(w) => Leaf(LiteralAtom(w))
    case Triple(lhs, op, rhs) => Leaf(Compare(lhs, op, rhs))
  }

  /** The tokens `ts[p..q]` derive expression `e`. */
  ghost predicate Derives(ts: seq<string>, p: nat, q: nat, e: Expr) {
    p <= q <= |ts| && exists t: OrTree :: OrWf(t) && OrYield(t) == ts[p..q] && OrExpr(t) == e
  }

  // ---------------------------------------------------------------- soundness

  lemma Glue(ts: seq<string>, p: nat, m: nat, q: nat)
    requires p <= m < q <= |ts|
    ensures ts[p..m] + [ts[m]] + ts[m + 1..q] == ts[p..q]
  {
  }

  lemma {:induction false} OrSound(ts: seq<string>, p: nat) returns (t: OrTree)
    requires ParseOr(ts, p).Got?
    ensures var r := ParseOr(ts, p);
            OrWf(t) && OrYield(t) == ts[p..r.pos] && OrExpr(t) == r.e && !At(ts, r.pos, "||") && !At(ts, r.pos, "&&")
    decreases |ts| - p, 4
  {
    var a := AndSound(ts, p);
    var r := ParseAnd(ts, p);
    t := OrLoopSound(ts, p, JustAnd(a), r.pos);
  }

  lemma {:induction false} OrLoopSound(ts: seq<string>, p: nat, left: OrTree, m: nat) returns (t: OrTree)
    requires p < m <= |ts| && OrWf(left) && OrYield(left) == ts[p..m] && OrLoop(ts, OrExpr(left), m).Got?
    requires !At(ts, m, "&&")
    ensures var r := OrLoop(ts, OrExpr(left), m);
            OrWf(t) && OrYield(t) == ts[p..r.pos] && OrExpr(t) == r.e && !At(ts, r.pos, "||") && !At(ts, r.pos, "&&")
    decreases |ts| - m, 5
  {
    if At(ts, m, "||") {
      var a := AndSound(ts, m + 1);
      var r := ParseAnd(ts, m + 1);
      Glue(ts, p, m, r.pos);
      t := OrLoopSound(ts, p, OrTree(left, a), r.pos);
    } else {
      t := left;
    }
  }

  lemma {:induction false} AndSound(ts: seq<string>, p: nat) returns (t: AndTree)
    requires ParseAnd(ts, p).Got?
    ensures var r := ParseAnd(ts, p);
            AndWf(t) && AndYield(t) == ts[p..r.pos] && AndExpr(t) == r.e && !At(ts, r.pos, "&&")
    decreases |ts| - p, 3
  {
    var u := UnarySound(ts, p);
    var r := ParseUnary(ts, p);
    t := AndLoopSound(ts, p, JustUnary(u), r.pos);
  }

  lemma {:induction false} AndLoopSound(ts: seq<string>, p: nat, left: AndTree, m: nat) returns (t: AndTree)
    requires p < m <= |ts| && AndWf(left) && AndYield(left) == ts[p..m] && AndLoop(ts, AndExpr(left), m).Got?
    ensures var r := AndLoop(ts, AndExpr(left), m);
            AndWf(t) && AndYield(t) == ts[p..r.pos] && AndExpr(t) == r.e && !At(ts, r.pos, "&&")
    decreases |ts| - m, 4
  {
    if At(ts, m, "&&") {
      var u := UnarySound(ts, m + 1);
      var r := ParseUnary(ts, m + 1);
      Glue(ts, p, m, r.pos);
      t := AndLoopSound(ts, p, AndTree(left, u), r.pos);
    } else {
      t := left;
    }
  }

  lemma {:induction false} UnarySound(ts: seq<string>, p: nat) returns (t: Unary)
    requires ParseUnary(ts, p).Got?
    ensures var r := ParseUnary(ts, p);
            UnaryWf(t) && UnaryYield(t) == ts[p..r.pos] && UnaryExpr(t) == r.e
    decreases |ts| - p, 2
  {
    hide CheckComparison;
    if At(ts, p, "!") {
      var u := UnarySound(ts, p + 1);
      t := Bang(u);
    } else if At(ts, p, "(") {
      var o := OrSound(ts, p + 1);
      t := Paren(o);
      var q := ParseOr(ts, p + 1).pos;
      assert ts[p..q + 1] == [ts[p]] + ts[p + 1..q] + [ts[q]];
    } else if IsLiteral(ts[p]) {
      t := Word(ts[p]);
    } else {
      t := Triple(ts[p], ts[p + 1], ts[p + 2]);
      ComparisonKept(ts[p], ts[p + 1], ts[p + 2]);
    }
  }

  lemma ComparisonKept(lhs: string, op: string, rhs: string)
    requires CheckComparison(lhs, op, rhs).Ok?
    ensures CheckComparison(lhs, op, rhs).value == Compare(lhs, op, rhs)
    ensures !IsLiteral(lhs) && lhs != "!" && lhs != "("
  {
  }

  // ---------------------------------------------------------------- completeness

  /** The tokens from `p` on begin with `y`. */
  ghost predicate Spells(ts: seq<string>, p: nat, y: seq<string>) {
    p + |y| <= |ts| && ts[p..p + |y|] == y
  }

  lemma SpellsParts(ts: seq<string>, p: nat, a: seq<string>, x: string, b: seq<string>)
    requires Spells(ts, p, a + [x] + b)
    ensures Spells(ts, p, a) && At(ts, p + |a|, x) && Spells(ts, p + |a| + 1, b)
  {
    var y := a + [x] + b;
    var s := ts[p..p + |y|];
    assert s[..|a|] == a && s[|a|] == x && s[|a| + 1..] == b;
    assert ts[p..p + |a|] == s[..|a|] && ts[p + |a| + 1..p + |a| + 1 + |b|] == s[|a| + 1..];
  }

  /** Reading the yield of a tree leaves the loop at its end with the tree's expression. */
  lemma {:induction false} OrComplete(ts: seq<string>, p: nat, t: OrTree)
    requires OrWf(t) && Spells(ts, p, OrYield(t)) && !At(ts, p + |OrYield(t)|, "&&")
    ensures ParseOr(ts, p) == OrLoop(ts, OrExpr(t), p + |OrYield(t)|)
    decreases t
  {
    hide Spells;
    SpellsFits(ts, p, OrYield(t));
    match t
    case JustAnd(a) =>
      AndComplete(ts, p, a);
    case OrTree(l, r) =>
      SpellsParts(ts, p, OrYield(l), "||", AndYield(r));
      OrComplete(ts, p, l);
      AndComplete(ts, p + |OrYield(l)| + 1, r);
  }

  lemma SpellsHead(ts: seq<string>, p: nat, x: string, b: seq<string>)
    requires Spells(ts, p, [x] + b)
    ensures At(ts, p, x) && Spells(ts, p + 1, b)
  {
    assert [] + [x] + b == [x] + b;
    SpellsParts(ts, p, [], x, b);
  }

  lemma SpellsAt(ts: seq<string>, p: nat, y: seq<string>, i: nat)
    requires Spells(ts, p, y) && i < |y|
    ensures At(ts, p + i, y[i])
  {
    assert ts[p..p + |y|][i] == ts[p + i];
  }

  lemma SpellsFits(ts: seq<string>, p: nat, y: seq<string>)
    requires Spells(ts, p, y)
    ensures p + |y| <= |ts|
  {
  }

  lemma {:induction false} AndComplete(ts: seq<string>, p: nat, t: AndTree)
    requires AndWf(t) && Spells(ts, p, AndYield(t))
    ensures p + |AndYield(t)| <= |ts| && ParseAnd(ts, p) == AndLoop(ts, AndExpr(t), p + |AndYield(t)|)
    decreases t
  {
    hide Spells, ParseUnary, UnaryExpr, UnaryYield, UnaryWf;
    SpellsFits(ts, p, AndYield(t));
    match t
    case JustUnary(u) =>
      UnaryComplete(ts, p, u);
    case AndTree(l, r) =>
      SpellsParts(ts, p, AndYield(l), "&&", UnaryYield(r));
      AndComplete(ts, p, l);
      UnaryComplete(ts, p + |AndYield(l)| + 1, r);
  }

  lemma {:induction false} UnaryComplete(ts: seq<string>, p: nat, t: Unary)
    requires UnaryWf(t) && Spells(ts, p, UnaryYield(t))
    ensures ParseUnary(ts, p) == Got(UnaryExpr(t), p + |UnaryYield(t)|)
    decreases t
  {
    hide Spells, CheckComparison;
    match t
    case Bang(u) =>
      SpellsHead(ts, p, "!", UnaryYield(u));
      UnaryComplete(ts, p + 1, u);
    case Paren(o) =>
      assert UnaryYield(t) == ["("] + (OrYield(o) + [")"] + []);
      SpellsHead(ts, p, "(", OrYield(o) + [")"] + []);
      SpellsParts(ts, p + 1, OrYield(o), ")", []);
      OrComplete(ts, p + 1, o);
    case Word(w) =>
      SpellsAt(ts, p, UnaryYield(t), 0);
    case Triple(lhs, op, rhs) =>
      SpellsAt(ts, p, UnaryYield(t), 0);
      SpellsAt(ts, p, UnaryYield(t), 1);
      SpellsAt(ts, p, UnaryYield(t), 2);
      ComparisonKept(lhs, op, rhs);
  }

  /** Soundness and completeness: the parser stops at `q` with `e` exactly if the tokens up to `q` derive
      `e` and the next one is neither `&&` nor `||`. */
  lemma ParserIsGrammar(ts: seq<string>, e: Expr, q: nat)
    ensures ParseOr(ts, 0) == Got(e, q) <==> Derives(ts, 0, q, e) && !At(ts, q, "||") && !At(ts, q, "&&")
  {
    if ParseOr(ts, 0) == Got(e, q) {
      var t := OrSound(ts, 0);
    }
    if Derives(ts, 0, q, e) && !At(ts, q, "||") && !At(ts, q, "&&") {
      var t: OrTree :| OrWf(t) && OrYield(t) == ts[0..q] && OrExpr(t) == e;
      OrComplete(ts, 0, t);
    }
  }

  /** The grammar is unambiguous: a token list has one meaning at most. */
  lemma Unambiguous(ts: seq<string>, e: Expr, f: Expr)
    requires Derives(ts, 0, |ts|, e) && Derives(ts, 0, |ts|, f)
    ensures e == f
  {
    ParserIsGrammar(ts, e, |ts|);
    ParserIsGrammar(ts, f, |ts|);
  }

  // ---------------------------------------------------------------- the parser as it moves `pos`

  /** `Parser`; an exception is an `Err`, after which `pos` is never read again. */
  class Parser {
    const tokens: seq<string>
    var pos: nat

    constructor (tokens: seq<string>)
      ensures this.tokens == tokens && pos == 0
    {
      this.tokens := tokens;
      pos := 0;
    }

    /** The outcome and the new position are those of the function `r`. */
    ghost predicate Follows(r: Parsed, out: Result<Expr>)
      reads this
    {
      match r
      case Got(e, q) => out == Ok(e) && pos == q
      case Failed(x) => out == Err(x)
    }

    method Match(s: string) returns (r: bool)
      modifies this
      ensures r == At(tokens, old(pos), s) && pos == if r then old(pos) + 1 else old(pos)
    {
      if pos < |tokens| && tokens[pos] == s {
        pos := pos + 1;
        return true;
      }
      return false;
    }

    method ParseAll() returns (out: Result<Expr>)
      requires pos == 0
      modifies this
      ensures out == Parse(tokens)
    {
      if tokens == [] {
        return Ok(Leaf(Const(true)));
      }
      out := Disjunction();
    }

    method Disjunction() returns (out: Result<Expr>)
      modifies this
      ensures Follows(ParseOr(tokens, old(pos)), out)
      decreases |tokens| - pos, 4
    {
      out := Conjunction();
      if out.Err? {
        return;
      }
      var left := out.value;
      while true
        invariant old(pos) < pos <= |tokens|
        invariant ParseOr(tokens, old(pos)) == OrLoop(tokens, left, pos)
        decreases |tokens| - pos
      {
        var more := Match("||");
        if !more {
          return Ok(left);
        }
        out := Conjunction();
        if out.Err? {
          return;
        }
        left := Or(left, out.value);
      }
    }

    method Conjunction() returns (out: Result<Expr>)
      modifies this
      ensures Follows(ParseAnd(tokens, old(pos)), out)
      decreases |tokens| - pos, 3
    {
      out := Negation();
      if out.Err? {
        return;
      }
      var left := out.value;
      while true
        invariant old(pos) < pos <= |tokens|
        invariant ParseAnd(tokens, old(pos)) == AndLoop(tokens, left, pos)
        decreases |tokens| - pos
      {
        var more := Match("&&");
        if !more {
          return Ok(left);
        }
        out := Negation();
        if out.Err? {
          return;
        }
        left := And(left, out.value);
      }
    }

    method Negation() returns (out: Result<Expr>)
      modifies this
      ensures Follows(ParseUnary(tokens, old(pos)), out)
      decreases |tokens| - pos, 2
    {
      var bang := Match("!");
      if bang {
        out := Negation();
        if out.Ok? {
          out := Ok(Not(out.value));
        }
      } else {
        out := Primary();
      }
    }

    method Primary() returns (out: Result<Expr>)
      modifies this
      ensures Follows(ParsePrimary(tokens, old(pos)), out)
      decreases |tokens| - pos, 1
    {
      var open := Match("(");
      if open {
        out := Disjunction();
        if out.Err? {
          return;
        }
        var close := Match(")");
        if !close {
          return Err(UnexpectedEnd);
        }
      } else {
        out := Condition();
      }
    }

    method Condition() returns (out: Result<Expr>)
      modifies this
      ensures Follows(ParseAtom(tokens, old(pos)), out)
      decreases |tokens| - pos, 0
    {
      if pos >= |tokens| {
        return Err(UnexpectedEnd);
      }
      if IsLiteral(tokens[pos]) {
        pos := pos + 1;
        return Ok(Leaf(LiteralAtom(tokens[pos - 1])));
      }
      pos := pos + 3;
      if pos > |tokens| {
        return Err(UnexpectedEnd);
      }
      var atom := CheckComparison(tokens[pos - 3], tokens[pos - 2], tokens[pos - 1]);
      out := if atom.Ok? then Ok(Leaf(atom.value)) else Err(atom.error);
    }
  }
}
