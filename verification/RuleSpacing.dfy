/** Conditions as users space them: the tokenizer on tokens with any gaps, or none, between them. */
module RuleSpacing {
  import opened RuleText

  /** White space, in which a lone `&` or `|` may stand: it is passed over. */
  predicate IsGap(s: string) {
    forall i | 0 <= i < |s| :: IsSpace(s[i]) || (s[i] in "&|" && i + 1 < |s| && IsSpace(s[i + 1]))
  }

  predicate IsWord(t: string) {
    t != "" && forall i | 0 <= i < |t| :: IsWordChar(t[i])
  }

  /** A token may stand directly before another: a word before what is no word, an operator of one character unless
      the two make one of two characters, an operator of two characters always. */
  predicate MayTouch(t: string, u: string) {
    IsPair(t) || (IsWord(t) && !IsWord(u)) || (|t| == 1 && IsSingle(t[0]) && u != "" && !IsPair([t[0], u[0]]))
  }

  /** Gaps before, between and behind the tokens. */
  predicate WellSpaced(ts: seq<string>, gaps: seq<string>) {
    && |gaps| == |ts| + 1
    && (forall i | 0 <= i < |gaps| :: IsGap(gaps[i]))
    && (forall i | 0 <= i < |ts| :: IsToken(ts[i]))
    && forall i | 0 < i < |ts| :: gaps[i] == "" ==> MayTouch(ts[i - 1], ts[i])
  }

  function Text(ts: seq<string>, gaps: seq<string>): string
    requires |gaps| == |ts| + 1
  {
    if ts == [] then gaps[0] else gaps[0] + ts[0] + Text(ts[1..], gaps[1..])
  }

  /** What stands behind a token does not lengthen it. */
  predicate Follows(t: string, rest: string) {
    || rest == ""
    || IsSpace(rest[0]) || rest[0] in "&|"
    || IsPair(t) || (IsWord(t) && !IsWordChar(rest[0])) || (|t| == 1 && IsSingle(t[0]) && !IsPair([t[0], rest[0]]))
  }

  lemma TokenThere(t: string, rest: string)
    requires IsToken(t) && Follows(t, rest)
    ensures TokenLength(t + rest) == |t|
  {
    hide IsSpace;
    var s := t + rest;
    assert s[..|t|] == t && s[0] == t[0];
    if IsPair(t) {
      assert s[..2] == t;
    } else if IsWord(t) {
      WordThere(t, rest);
      NoPair(s, t);
    } else {
      if |s| >= 2 { SingleThere(t, rest); }
    }
  }

  lemma SingleThere(t: string, rest: string)
    requires |t| == 1 && IsSingle(t[0]) && rest != ""
    requires IsSpace(rest[0]) || rest[0] in "&|" || !IsPair([t[0], rest[0]])
    ensures !IsPair((t + rest)[..2])
  {
    assert (t + rest)[..2] == [t[0], rest[0]];
  }

  lemma WordThere(t: string, rest: string)
    requires IsWord(t) && (rest == "" || !IsWordChar(rest[0]))
    ensures WordLength(t + rest) == |t|
  {
    var s := t + rest;
    var n := WordLength(s);
    assert forall i | 0 <= i < |t| :: s[i] == t[i];
    assert rest != "" ==> s[|t|] == rest[0];
  }

  /** A gap is passed over. */
  lemma {:induction false} GapSkipped(g: string, rest: string)
    requires IsGap(g)
    ensures Tokenize(g + rest) == Tokenize(rest)
  {
    if g == "" {
      assert g + rest == rest;
    } else {
      var s := g + rest;
      assert s[1..] == g[1..] + rest && s[0] == g[0];
      NothingThere(g, rest);
      assert forall i | 0 <= i < |g[1..]| :: g[1..][i] == g[i + 1];
      GapSkipped(g[1..], rest);
    }
  }

  lemma NothingThere(g: string, rest: string)
    requires g != "" && (IsSpace(g[0]) || (g[0] in "&|" && |g| > 1 && IsSpace(g[1])))
    ensures TokenLength(g + rest) == 0
  {
    var s := g + rest;
    assert s[0] == g[0];
    if |s| >= 2 {
      assert s[..2] == [s[0], s[1]];
      if |g| > 1 { assert s[1] == g[1]; }
    }
    assert WordLength(s) == 0;
  }

  /** The first character behind a token: of its gap, or of the next token. */
  lemma FollowsToken(ts: seq<string>, gaps: seq<string>)
    requires ts != [] && WellSpaced(ts, gaps)
    ensures Follows(ts[0], Text(ts[1..], gaps[1..]))
  {
    var t, g := ts[0], gaps[1];
    var rest := Text(ts[1..], gaps[1..]);
    assert IsGap(g);
    if g != "" {
      assert rest[0] == g[0];
    } else if |ts| > 1 {
      var u := ts[1];
      assert IsToken(u) && MayTouch(t, u);
      TokenStart(u);
      assert ts[1..][0] == u && gaps[1..][0] == "";
      assert rest[0] == u[0];
    }
  }

  lemma TokenStart(u: string)
    requires IsToken(u)
    ensures u != "" && (!IsWord(u) ==> !IsWordChar(u[0]))
  {
  }

  lemma RestSpaced(ts: seq<string>, gaps: seq<string>)
    requires ts != [] && WellSpaced(ts, gaps)
    ensures WellSpaced(ts[1..], gaps[1..]) && IsGap(gaps[0]) && IsToken(ts[0]) && ts[0] != ""
  {
    hide IsGap, IsToken, MayTouch;
    assert IsToken(ts[0]);
    TokenNonempty(ts[0]);
  }

  /** However they are spaced, the tokens come back one by one. */
  lemma {:induction false} TokensRead(ts: seq<string>, gaps: seq<string>)
    requires WellSpaced(ts, gaps)
    ensures Tokenize(Text(ts, gaps)) == ts
  {
    hide WellSpaced, IsGap, IsToken, TokenLength, Follows;
    if ts == [] {
      LastGap(ts, gaps);
      GapSkipped(gaps[0], "");
      assert gaps[0] + "" == gaps[0];
    } else {
      LastGap(ts, gaps);
      var t, rest := ts[0], Text(ts[1..], gaps[1..]);
      RestSpaced(ts, gaps);
      FollowsToken(ts, gaps);
      assert Text(ts, gaps) == gaps[0] + (t + rest);
      GapSkipped(gaps[0], t + rest);
      TokenThere(t, rest);
      assert (t + rest)[..|t|] == t && (t + rest)[|t|..] == rest;
      TokensRead(ts[1..], gaps[1..]);
    }
  }

  lemma LastGap(ts: seq<string>, gaps: seq<string>)
    requires WellSpaced(ts, gaps)
    ensures |gaps| == |ts| + 1 && IsGap(gaps[0])
  {
  }

  /** Without a gap two tokens come back exactly if they may touch. */
  lemma TouchExactly(t: string, u: string)
    requires IsToken(t) && IsToken(u)
    ensures Tokenize(t + u) == [t, u] <==> MayTouch(t, u)
  {
    hide Tokenize;
    TokenStart(t);
    TokenStart(u);
    if MayTouch(t, u) {
      assert WellSpaced([t, u], ["", "", ""]);
      TwoTokens(t, u);
      TokensRead([t, u], ["", "", ""]);
    } else {
      LongerToken(t, u);
      FirstToken(t + u);
    }
  }

  lemma TwoTokens(t: string, u: string)
    ensures Text([t, u], ["", "", ""]) == t + u
  {
    assert [t, u][1..] == [u] && ["", "", ""][1..] == ["", ""] && [u][1..] == [] && ["", ""][1..] == [""];
    assert Text([u], ["", ""]) == u;
  }

  lemma LongerToken(t: string, u: string)
    requires IsToken(t) && IsToken(u) && !MayTouch(t, u)
    ensures TokenLength(t + u) > |t|
  {
    var s := t + u;
    TokenStart(t);
    TokenStart(u);
    if IsWord(t) {
      assert IsWord(u);
      assert forall i | 0 <= i < |t| :: s[i] == t[i];
      assert s[|t|] == u[0];
      assert s[..|t|] == t;
      NoPair(s, t);
    } else {
      assert s[..2] == [t[0], u[0]];
    }
  }

  lemma FirstToken(s: string)
    requires s != "" && TokenLength(s) > 0
    ensures Tokenize(s) != [] && |Tokenize(s)[0]| == TokenLength(s)
  {
  }
}
