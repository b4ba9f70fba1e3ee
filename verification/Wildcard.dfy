/** Utils.kt: hostname wildcards and the regular expression they are compiled to. */
module Wildcard {

  // ---------------------------------------------------------------- the compiler

  predicate StartsWith(s: string, p: string) {
    |p| <= |s| && s[..|p|] == p
  }

  predicate Contains(s: string, p: string) {
    StartsWith(s, p) || (s != "" && Contains(s[1..], p))
  }

  /** `s.replace(old, new)`: occurrences are found from left to right and do not overlap. */
  function Replace(s: string, old': string, new': string): string
    requires old' != ""
  {
    if s == "" then ""
    else if StartsWith(s, old') then new' + Replace(s[|old'|..], old', new')
    else [s[0]] + Replace(s[1..], old', new')
  }

  predicate IsWildcardChar(c: char) {
    || 'a' <= c <= 'z' || 'A' <= c <= 'Z' || '0' <= c <= '9'
    || c == '_' || c == '.' || c == '*' || c == '-'
    || '\U{100}' <= c <= '\U{FFFF}'
  }

  predicate IsValidDomainWildcard(s: string) {
    !Contains(s, "***") && s != "" && forall i | 0 <= i < |s| :: IsWildcardChar(s[i])
  }

  /** The four chained replacements of `domainWildcardToRegex`; `^` and `$` are implied by `matches`. */
  function WildcardToRegex(w: string): string {
    Replace(Replace(Replace(Replace(w, ".", "\\."), "*", "\\*"), "\\*\\*", ".*"), "\\*", "[^.]*")
  }

  // ---------------------------------------------------------------- regular expressions

  datatype Atom = Literal(c: char) | AnyChar | NotDot

  datatype Item = Item(atom: Atom, star: bool)

  /** The part of the regular expression syntax such patterns use: escapes, `.`, `[^.]` and `*`. */
  function ParseRegex(p: string): seq<Item>
    decreases |p|
  {
    if p == "" then []
    else
      var (atom, rest) :=
        if p[0] == '\\' && |p| > 1 then (Literal(p[1]), p[2..])
        else if StartsWith(p, "[^.]") then (NotDot, p[4..])
        else if p[0] == '.' then (AnyChar, p[1..])
        else (Literal(p[0]), p[1..]);
      if StartsWith(rest, "*") then [Item(atom, true)] + ParseRegex(rest[1..])
      else [Item(atom, false)] + ParseRegex(rest)
  }

  function Lower(c: char): char {
    if 'A' <= c <= 'Z' then (c as int + 32) as char else c
  }

  /** One character under IGNORE_CASE; `.` does not match a line terminator. */
  predicate Accepts(a: Atom, c: char) {
    match a
    case Literal(l) => Lower(l) == Lower(c)
    case AnyChar => !IsLineEnd(c)
    case NotDot => c != '.'
  }

  predicate IsLineEnd(c: char) {
    c == '\n' || c == '\r' || c == '\U{85}' || c == '\U{2028}' || c == '\U{2029}'
  }

  /** `Regex.matches`: the whole host is consumed. */
  predicate Matches(items: seq<Item>, host: string)
    decreases |items| + |host|
  {
    if items == [] then host == ""
    else if items[0].star then
      || Matches(items[1..], host)
      || (host != "" && Accepts(items[0].atom, host[0]) && Matches(items, host[1..]))
    else
      host != "" && Accepts(items[0].atom, host[0]) && Matches(items[1..], host[1..])
  }

  /** `Utils.domainWildcardToRegex(w).matches(host)`. */
  predicate RegexMatches(w: string, host: string) {
    Matches(ParseRegex(WildcardToRegex(w)), host)
  }

  // ---------------------------------------------------------------- what a wildcard means

  /** `**` is any run within a line, `*` any run without a dot, everything else itself, case ignored.
      Host names hold no line ends, so there `**` is any run. */
  ghost predicate Glob(w: string, host: string)
    decreases |w|
  {
    if w == "" then host == ""
    else if StartsWith(w, "**") then
      exists k :: 0 <= k <= |host| && OneLine(host[..k]) && Glob(w[2..], host[k..])
    else if w[0] == '*' then
      exists k :: 0 <= k <= |host| && '.' !in host[..k] && Glob(w[1..], host[k..])
    else
      host != "" && Lower(w[0]) == Lower(host[0]) && Glob(w[1..], host[1..])
  }

  ghost predicate OneLine(host: string) {
    forall i | 0 <= i < |host| :: !IsLineEnd(host[i])
  }

  // ---------------------------------------------------------------- one replacement at a time

  /** The wildcard with its dots escaped, then its stars escaped, then `**` translated, then `*`. */
  function Stage(w: string, n: nat): string
    requires n <= 4
    decreases |w|
  {
    if w == "" then ""
    else if n >= 3 && StartsWith(w, "**") then ".*" + Stage(w[2..], n)
    else Piece(w[0], n) + Stage(w[1..], n)
  }

  function Piece(c: char, n: nat): string {
    if c == '.' && n >= 1 then "\\."
    else if c == '*' && n == 4 then "[^.]*"
    else if c == '*' && n >= 2 then "\\*"
    else [c]
  }

  predicate Plain(w: string) {
    forall i | 0 <= i < |w| :: IsWildcardChar(w[i])
  }

  lemma StageStart(w: string, n: nat)
    requires Plain(w) && n <= 4
    ensures w != "" && n < 3 ==> Stage(w, n) == Piece(w[0], n) + Stage(w[1..], n)
    ensures n >= 2 && w != "" ==> Stage(w, n) != "" && Stage(w, n)[0] != '*'
    ensures n >= 2 && w != "" && w[0] != '*' ==> !StartsWith(Stage(w, n), "\\*")
  {
  }

  lemma {:induction false} FirstStage(w: string)
    requires Plain(w)
    ensures Stage(w, 0) == w && Replace(w, ".", "\\.") == Stage(w, 1)
  {
    if w != "" { FirstStage(w[1..]); }
  }

  /** No occurrence starts here, as position `k` of it would not fit. */
  lemma Skip(c: char, t: string, old': string, new': string, k: nat)
    requires k < |old'| && (|t| < k || (if k == 0 then c else t[k - 1]) != old'[k])
    ensures Replace([c] + t, old', new') == [c] + Replace(t, old', new')
  {
    var s := [c] + t;
    assert s[1..] == t;
    if |old'| <= |s| {
      assert s[..|old'|][k] == s[k];
    }
  }

  lemma Hit(old': string, t: string, new': string)
    requires old' != ""
    ensures Replace(old' + t, old', new') == new' + Replace(t, old', new')
  {
    assert (old' + t)[..|old'|] == old' && (old' + t)[|old'|..] == t;
  }

  lemma {:induction false} SecondStage(w: string)
    requires Plain(w)
    ensures Replace(Stage(w, 1), "*", "\\*") == Stage(w, 2)
  {
    hide Replace;
    if w == "" {
      EmptyText("*", "\\*");
    } else {
      SecondStage(w[1..]);
      var t := Stage(w[1..], 1);
      if w[0] == '.' {
        Skip('.', t, "*", "\\*", 0);
        Skip('\\', ['.'] + t, "*", "\\*", 0);
        assert Stage(w, 1) == ['\\'] + (['.'] + t);
      } else if w[0] == '*' {
        Hit("*", t, "\\*");
      } else {
        Skip(w[0], t, "*", "\\*", 0);
      }
    }
  }

  lemma EmptyText(old': string, new': string)
    requires old' != ""
    ensures Replace("", old', new') == ""
  {
  }

  lemma EscapedDot(t: string, old': string, new': string)
    requires |old'| >= 2 && old'[0] == '\\' && old'[1] == '*'
    ensures Replace("\\." + t, old', new') == "\\." + Replace(t, old', new')
  {
    hide Replace;
    Skip('.', t, old', new', 0);
    Skip('\\', ['.'] + t, old', new', 1);
    assert "\\." + t == ['\\'] + (['.'] + t);
  }

  /** A single escaped star is not half of a double one. */
  lemma EscapedStar(t: string, new': string)
    requires !StartsWith(t, "\\*")
    ensures Replace("\\*" + t, "\\*\\*", new') == "\\*" + Replace(t, "\\*\\*", new')
  {
    hide Replace;
    var o := "\\*\\*";
    Skip('*', t, o, new', 0);
    assert |t| >= 2 ==> t[..2] == [t[0], t[1]];
    Skip('\\', ['*'] + t, o, new', if t != "" && t[0] == '\\' then 3 else 2);
    assert "\\*" + t == ['\\'] + (['*'] + t);
  }

  lemma SingleStar(w: string)
    requires Plain(w) && (w == "" || w[0] != '*')
    ensures !StartsWith(Stage(w, 2), "\\*")
  {
    StageStart(w, 2);
  }

  lemma {:induction false} ThirdStage(w: string)
    requires Plain(w)
    ensures Replace(Stage(w, 2), "\\*\\*", ".*") == Stage(w, 3)
    decreases |w|
  {
    hide Replace;
    var o, n := "\\*\\*", ".*";
    if w == "" {
      EmptyText(o, n);
    } else if StartsWith(w, "**") {
      ThirdStage(w[2..]);
      DoubleStar(w);
      Hit(o, Stage(w[2..], 2), n);
    } else {
      ThirdStage(w[1..]);
      var t := Stage(w[1..], 2);
      if w[0] == '.' {
        EscapedDot(t, o, n);
      } else if w[0] == '*' {
        SingleStar(w[1..]);
        EscapedStar(t, n);
      } else {
        Skip(w[0], t, o, n, 0);
      }
    }
  }

  lemma DoubleStar(w: string)
    requires StartsWith(w, "**")
    ensures Stage(w, 2) == "\\*\\*" + Stage(w[2..], 2)
  {
    assert w[0] == w[..2][0] && w[1] == w[..2][1];
    assert w[1..][1..] == w[2..];
    assert Stage(w, 2) == "\\*" + ("\\*" + Stage(w[2..], 2));
  }

  lemma {:induction false} FourthStage(w: string)
    requires Plain(w)
    ensures Replace(Stage(w, 3), "\\*", "[^.]*") == Stage(w, 4)
    decreases |w|
  {
    hide Replace;
    var o, n := "\\*", "[^.]*";
    if w == "" {
      EmptyText(o, n);
    } else if StartsWith(w, "**") {
      FourthStage(w[2..]);
      var t := Stage(w[2..], 3);
      Skip('*', t, o, n, 0);
      Skip('.', ['*'] + t, o, n, 0);
      assert Stage(w, 3) == ['.'] + (['*'] + t);
    } else {
      FourthStage(w[1..]);
      var t := Stage(w[1..], 3);
      if w[0] == '*' {
        Hit(o, t, n);
      } else if w[0] == '.' {
        EscapedDot(t, o, n);
      } else {
        Skip(w[0], t, o, n, 0);
      }
    }
  }

  lemma ChainIsStage(w: string)
    requires Plain(w)
    ensures WildcardToRegex(w) == Stage(w, 4)
  {
    hide Replace, Stage;
    FirstStage(w);
    SecondStage(w);
    ThirdStage(w);
    FourthStage(w);
  }

  // ---------------------------------------------------------------- the items

  /** The items a wildcard is meant to become. */
  function ItemsOf(w: string): seq<Item>
    decreases |w|
  {
    if w == "" then []
    else if StartsWith(w, "**") then [Item(AnyChar, true)] + ItemsOf(w[2..])
    else if w[0] == '*' then [Item(NotDot, true)] + ItemsOf(w[1..])
    else [Item(Literal(w[0]), false)] + ItemsOf(w[1..])
  }

  lemma ParseStar(p: string, atom: Atom, t: string, n: nat)
    requires (p == ".*" + t && atom == AnyChar && n == 1) || (p == "[^.]*" + t && atom == NotDot && n == 4)
    ensures ParseRegex(p) == [Item(atom, true)] + ParseRegex(t)
  {
    var rest := "*" + t;
    assert p[n..] == rest && rest[1..] == t;
    if n == 4 { assert p[..4] == "[^.]"; }
  }

  lemma ParseDot(p: string, t: string)
    requires p == "\\." + t && (t == "" || t[0] != '*')
    ensures ParseRegex(p) == [Item(Literal('.'), false)] + ParseRegex(t)
  {
    assert p[2..] == t;
  }

  lemma ParseLiteral(p: string, c: char, t: string)
    requires p == [c] + t && c != '\\' && c != '.' && c != '[' && (t == "" || t[0] != '*')
    ensures ParseRegex(p) == [Item(Literal(c), false)] + ParseRegex(t)
  {
    assert p[1..] == t;
    if 4 <= |p| { assert p[..4][0] == c; }
  }

  lemma {:induction false} ParsedStage(w: string)
    requires Plain(w)
    ensures ParseRegex(Stage(w, 4)) == ItemsOf(w)
    decreases |w|
  {
    hide ParseRegex;
    if w == "" {
      EmptyPattern();
    } else if StartsWith(w, "**") {
      ParsedStage(w[2..]);
      ParseStar(Stage(w, 4), AnyChar, Stage(w[2..], 4), 1);
    } else {
      ParsedStage(w[1..]);
      var t := Stage(w[1..], 4);
      StageStart(w[1..], 4);
      if w[0] == '*' {
        ParseStar(Stage(w, 4), NotDot, t, 4);
      } else if w[0] == '.' {
        ParseDot(Stage(w, 4), t);
      } else {
        ParseLiteral(Stage(w, 4), w[0], t);
      }
    }
  }

  lemma EmptyPattern()
    ensures ParseRegex("") == []
  {
  }

  /** The first item accepts `k` characters and the rest matches what follows. */
  ghost predicate RunTo(items: seq<Item>, host: string, k: nat)
    requires items != []
  {
    && k <= |host|
    && (forall i | 0 <= i < k :: Accepts(items[0].atom, host[i]))
    && Matches(items[1..], host[k..])
  }

  lemma RunShift(items: seq<Item>, host: string, k: nat)
    requires items != [] && host != ""
    ensures RunTo(items, host, k + 1) <==> Accepts(items[0].atom, host[0]) && RunTo(items, host[1..], k)
  {
    hide Accepts, Matches;
    if k + 1 <= |host| {
      assert host[1..][k..] == host[k + 1..];
      assert forall i | 0 <= i < k :: host[1..][i] == host[i + 1];
      assert forall i | 1 <= i < k + 1 :: host[i] == host[1..][i - 1];
    }
  }

  /** A starred item consumes some run it accepts, then the rest matches. */
  lemma {:induction false} StarIsRun(items: seq<Item>, host: string)
    requires items != [] && items[0].star
    ensures Matches(items, host) <==> exists k: nat :: RunTo(items, host, k)
    decreases |host|
  {
    hide Accepts, RunTo;
    NoRun(items, host);
    if host != "" {
      StarIsRun(items, host[1..]);
      if k: nat :| RunTo(items, host[1..], k) {
        RunShift(items, host, k);
      }
      if k: nat :| RunTo(items, host, k) && k > 0 {
        RunShift(items, host, k - 1);
      }
    } else if k: nat :| RunTo(items, host, k) {
      assert k == 0 by { RunFits(items, host, k); }
    }
  }

  lemma RunFits(items: seq<Item>, host: string, k: nat)
    requires items != [] && RunTo(items, host, k)
    ensures k <= |host|
  {
  }

  lemma NoRun(items: seq<Item>, host: string)
    requires items != []
    ensures RunTo(items, host, 0) <==> Matches(items[1..], host)
  {
    assert host[0..] == host;
  }

  lemma {:induction false} ItemsMeanGlob(w: string, host: string)
    ensures Matches(ItemsOf(w), host) <==> Glob(w, host)
    decreases |w|, 1
  {
    hide Matches;
    if w == "" {
      NoItems(host);
    } else if StartsWith(w, "**") || w[0] == '*' {
      StarItem(w, host);
    } else {
      if host != "" { ItemsMeanGlob(w[1..], host[1..]); }
      OneItem(ItemsOf(w), host);
      assert ItemsOf(w)[1..] == ItemsOf(w[1..]);
    }
  }

  lemma {:induction false} StarItem(w: string, host: string)
    requires w != "" && (StartsWith(w, "**") || w[0] == '*')
    ensures Matches(ItemsOf(w), host) <==> Glob(w, host)
    decreases |w|, 0
  {
    hide Matches, RunTo;
    var double := StartsWith(w, "**");
    var rest := if double then w[2..] else w[1..];
    StarIsRun(ItemsOf(w), host);
    forall k: nat
      ensures RunTo(ItemsOf(w), host, k) <==>
                k <= |host| && (if double then OneLine(host[..k]) else '.' !in host[..k]) && Glob(rest, host[k..])
    {
      if k <= |host| { ItemsMeanGlob(rest, host[k..]); }
      StarRun(w, rest, host, k);
    }
  }

  lemma StarRun(w: string, rest: string, host: string, k: nat)
    requires w != "" && (StartsWith(w, "**") || w[0] == '*')
    requires rest == if StartsWith(w, "**") then w[2..] else w[1..]
    ensures RunTo(ItemsOf(w), host, k) <==>
              k <= |host| && (if StartsWith(w, "**") then OneLine(host[..k]) else '.' !in host[..k])
              && Matches(ItemsOf(rest), host[k..])
  {
    hide Matches;
    assert ItemsOf(w)[1..] == ItemsOf(rest);
    if k <= |host| { assert forall i | 0 <= i < k :: host[..k][i] == host[i]; }
  }

  lemma NoItems(host: string)
    ensures Matches([], host) <==> host == ""
  {
  }

  lemma OneItem(items: seq<Item>, host: string)
    requires items != [] && !items[0].star
    ensures Matches(items, host) <==> host != "" && Accepts(items[0].atom, host[0]) && Matches(items[1..], host[1..])
  {
  }

  /** For every wildcard the validator accepts and every host, the compiled regular expression matches
      exactly what the wildcard means. */
  lemma WildcardMeaning(w: string, host: string)
    requires IsValidDomainWildcard(w)
    ensures RegexMatches(w, host) <==> Glob(w, host)
  {
    hide Matches, Glob, WildcardToRegex, Stage, ParseRegex;
    ChainIsStage(w);
    ParsedStage(w);
    ItemsMeanGlob(w, host);
  }

  // ---------------------------------------------------------------- which wildcards there are

  predicate Stars(s: string, i: nat) {
    i + 3 <= |s| && s[i] == '*' && s[i + 1] == '*' && s[i + 2] == '*'
  }

  lemma {:induction false} ThreeStars(s: string)
    ensures Contains(s, "***") <==> exists i: nat :: Stars(s, i)
  {
    assert StartsWith(s, "***") <==> Stars(s, 0) by {
      if |s| >= 3 { assert s[..3] == [s[0], s[1], s[2]]; }
    }
    if s != "" {
      ThreeStars(s[1..]);
      if exists i: nat :: Stars(s[1..], i) {
        var i: nat :| Stars(s[1..], i);
        assert Stars(s, i + 1);
      }
      if exists i: nat :: Stars(s, i) {
        var i: nat :| Stars(s, i);
        if i > 0 { assert Stars(s[1..], i - 1); }
      }
    }
  }

  /** By code: letters, digits, underscore, dot, star and hyphen, and what lies beyond Latin-1. */
  predicate IsWildcardCode(n: nat) {
    97 <= n <= 122 || 65 <= n <= 90 || 48 <= n <= 57 || n == 95 || n == 46 || n == 42 || n == 45 || 256 <= n <= 65535
  }

  /** No three stars in a row, and no other characters. */
  lemma WildcardAccepted(s: string)
    ensures IsValidDomainWildcard(s) <==>
              && s != "" && (forall i: nat :: !Stars(s, i))
              && forall i | 0 <= i < |s| :: IsWildcardCode(s[i] as int)
  {
    hide Contains;
    ThreeStars(s);
  }

  /** Case is ignored for the 26 letters, and for nothing else. */
  lemma CaseIgnored(c: char, d: char)
    ensures Lower(c) == Lower(d) <==>
              || c == d
              || (65 <= c as int <= 90 && d as int == c as int + 32)
              || (65 <= d as int <= 90 && c as int == d as int + 32)
  {
  }

  /** The characters that two stars do not cross. */
  lemma LinesEndAt(c: char)
    ensures IsLineEnd(c) <==> c as int in {10, 13, 0x85, 0x2028, 0x2029}
  {
  }
}
