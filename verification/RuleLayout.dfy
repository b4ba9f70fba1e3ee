/** Rule lists as users write them: blank space, comments, empty lines, any line ends, with and without conditions. */
module RuleLayout {
  import opened Text
  import opened Rules
  import opened RuleParser
  import opened RuleText
  import opened RuleList

  /** What a line says: nothing, a server, a server and a dollar sign, or a server and a condition. */
  datatype Item =
    | Nothing
    | Bare(server: Server)
    | Dollar(server: Server, gap: string)
    | Full(server: Server, gap: string, gap': string, condition: string)

  /** A line: blank space around an item, perhaps a comment, and its end. */
  datatype Entry = Entry(before: string, item: Item, after: string, comment: string, end: string)

  predicate Blanks(s: string) {
    forall i | 0 <= i < |s| :: IsBlank(s[i]) && s[i] != '\n' && s[i] != '\r'
  }

  /** Text that begins and ends visibly. */
  predicate Visible(s: string) {
    s != "" && !IsBlank(s[0]) && !IsBlank(s[|s| - 1])
  }

  /** It stays within its line and holds no comment. */
  predicate IsCode(s: string) {
    '\n' !in s && '\r' !in s && '#' !in s
  }

  predicate ValidItem(item: Item) {
    match item
    case Nothing => true
    case Bare(server) => ValidServer(server)
    case Dollar(server, gap) => ValidServer(server) && Blanks(gap)
    case Full(server, gap, gap', condition) =>
      ValidServer(server) && Blanks(gap) && Blanks(gap') && Visible(condition) && IsCode(condition)
  }

  predicate ValidEntry(e: Entry) {
    && ValidItem(e.item) && Blanks(e.before) && Blanks(e.after)
    && (e.comment == "" || e.comment[0] == '#') && '\n' !in e.comment && '\r' !in e.comment
    && e.end in {"\n", "\r", "\r\n"}
  }

  function ItemText(item: Item): string
    requires ValidItem(item)
  {
    match item
    case Nothing => ""
    case Bare(server) => ServerText(server)
    case Dollar(server, gap) => ServerText(server) + gap + "$"
    case Full(server, gap, gap', condition) => ServerText(server) + gap + "$" + gap' + condition
  }

  function LineText(e: Entry): string
    requires ValidEntry(e)
  {
    e.before + ItemText(e.item) + e.after + e.comment
  }

  /** An empty line after a carriage return would make one line end of the two. */
  predicate ValidLayout(es: seq<Entry>) {
    && (forall i | 0 <= i < |es| :: ValidEntry(es[i]))
    && forall i | 0 < i < |es| :: es[i - 1].end == "\r" ==> LineText(es[i]) != "" || es[i].end != "\n"
  }

  function Layout(es: seq<Entry>): string
    requires forall i | 0 <= i < |es| :: ValidEntry(es[i])
  {
    if es == [] then "" else LineText(es[0]) + es[0].end + Layout(es[1..])
  }

  /** The rule of a line: without a condition it is for every packet. */
  function RuleOf(item: Item): Result<Rule>
    requires !item.Nothing?
  {
    if item.Full? then
      match Parse(Tokenize(item.condition))
      case Err(x) => Err(x)
      case Ok(e) => Ok(Rule(item.server, e))
    else Ok(Rule(item.server, Leaf(Const(true))))
  }

  /** All rules in order, or the first error. */
  function Compiled(es: seq<Entry>): Result<seq<Rule>> {
    if es == [] then Ok([])
    else if es[0].item.Nothing? then Compiled(es[1..])
    else
      match RuleOf(es[0].item)
      case Err(x) => Err(x)
      case Ok(rule) => Prepend([rule], Compiled(es[1..]))
  }

  // ---------------------------------------------------------------- trimming

  lemma {:induction false} TrimFront(a: string, s: string)
    requires Blanks(a)
    ensures Trim(a + s) == Trim(s)
  {
    if a != "" {
      assert (a + s)[0] == a[0] && (a + s)[1..] == a[1..] + s;
      TrimFront(a[1..], s);
    } else {
      assert a + s == s;
    }
  }

  lemma {:induction false} TrimBack(s: string, b: string)
    requires Blanks(b) && Visible(s)
    ensures Trim(s + b) == s
  {
    var t := s + b;
    if b == "" {
      assert t == s;
    } else {
      assert t[0] == s[0] && t[|t| - 1] == b[|b| - 1] && t[..|t| - 1] == s + b[..|b| - 1];
      TrimBack(s, b[..|b| - 1]);
    }
  }

  lemma TrimAll(a: string)
    requires Blanks(a)
    ensures Trim(a) == ""
  {
    assert a + "" == a;
    TrimFront(a, "");
  }

  lemma Trimmed(a: string, s: string, b: string)
    requires Blanks(a) && Blanks(b) && (s == "" || Visible(s))
    ensures Trim(a + s + b) == s
  {
    hide Trim, Visible, Blanks;
    assert a + s + b == a + (s + b);
    TrimFront(a, s + b);
    if s == "" {
      assert s + b == b;
      TrimAll(b);
    } else {
      TrimBack(s, b);
    }
  }

  // ---------------------------------------------------------------- one line

  lemma BlanksAreCode(s: string)
    requires Blanks(s)
    ensures IsCode(s) && '$' !in s
  {
    assert !IsBlank('#') && !IsBlank('$');
  }

  lemma CodeJoins(a: string, b: string)
    requires IsCode(a) && IsCode(b)
    ensures IsCode(a + b)
  {
  }

  lemma DollarIsCode()
    ensures IsCode("$") && !IsBlank('$')
  {
  }

  /** An item begins and ends visibly and holds no comment. */
  lemma ItemVisible(item: Item)
    requires ValidItem(item)
    ensures item.Nothing? || Visible(ItemText(item))
    ensures IsCode(ItemText(item))
  {
    hide ServerText, ValidServer, Blanks, IsCode, Inert, IsBlank;
    if item.Nothing? {
      NothingIsCode();
    } else {
      var s := ServerText(item.server);
      ServerChars(item.server);
      ServerIsCode(s);
      DollarIsCode();
      match item
      case Bare(_) =>
      case Dollar(_, gap) =>
        BlanksAreCode(gap);
        CodeJoins(s, gap);
        CodeJoins(s + gap, "$");
      case Full(_, gap, gap', condition) =>
        BlanksAreCode(gap);
        BlanksAreCode(gap');
        CodeJoins(s, gap);
        CodeJoins(s + gap, "$");
        CodeJoins(s + gap + "$", gap');
        CodeJoins(s + gap + "$" + gap', condition);
    }
  }

  lemma NothingIsCode()
    ensures IsCode("")
  {
  }

  lemma ServerIsCode(s: string)
    requires Inert(s)
    ensures IsCode(s) && '$' !in s
  {
    InertAvoids(s);
  }

  /** What is left of a line is its item. */
  lemma LineCode(e: Entry)
    requires ValidEntry(e)
    ensures Code(LineText(e)) == ItemText(e.item) && '\n' !in LineText(e) && '\r' !in LineText(e)
  {
    hide ItemText, ValidItem, Blanks, Trim, Split2, Visible;
    var item := ItemText(e.item);
    var code := e.before + item + e.after;
    ItemVisible(e.item);
    BlanksAreCode(e.before);
    BlanksAreCode(e.after);
    CommentCut(code, e.comment);
    if e.item.Nothing? { assert item == "" by { EmptyItem(); } }
    Trimmed(e.before, item, e.after);
  }

  lemma EmptyItem()
    ensures ItemText(Nothing) == ""
  {
  }

  lemma CommentCut(code: string, comment: string)
    requires '#' !in code && (comment == "" || comment[0] == '#')
    ensures Split2(code + comment, '#')[0] == code
  {
    if comment == "" {
      assert code + comment == code;
      IndexOfSeparator(code, '#', "");
    } else {
      var s := code + ['#'] + comment[1..];
      assert code + comment == s;
      IndexOfSeparator(code, '#', comment[1..]);
      assert s[..|code|] == code;
    }
  }

  /** An item is read as its rule. */
  lemma ItemRead(item: Item)
    requires ValidItem(item) && !item.Nothing?
    ensures FromLine(ItemText(item)) == RuleOf(item) && ItemText(item) != ""
  {
    hide ServerText, ServerFromString, ValidServer, Blanks, Parse, Tokenize, Trim, Visible, FromLine, Split2, Inert;
    var s := ServerText(item.server);
    ServerChars(item.server);
    ServerIsCode(s);
    NoCondition();
    match item
    case Bare(server) =>
      NoSeparator(s, '$');
      TrimKeeps(s);
      PartsRead(s, server, [s], "");
    case Dollar(server, gap) =>
      DollarSplits(s, gap, "");
      assert s + gap + "$" + "" == ItemText(item);
      assert Visible(s) by { IsVisible(s); }
      TrimBack(s, gap);
      NoText();
      PartsRead(ItemText(item), server, [s + gap, ""], "");
    case Full(server, gap, gap', condition) =>
      DollarSplits(s, gap, gap' + condition);
      assert s + gap + "$" + (gap' + condition) == ItemText(item);
      assert Visible(s) by { IsVisible(s); }
      TrimBack(s, gap);
      TrimFront(gap', condition);
      assert condition + "" == condition;
      NoBlanks();
      TrimBack(condition, "");
      PartsRead(ItemText(item), server, [s + gap, gap' + condition], condition);
  }

  lemma PartsRead(line: string, server: Server, parts: seq<string>, condition: string)
    requires ValidServer(server) && 1 <= |parts| <= 2 && Split2(line, '$') == parts
    requires Trim(parts[0]) == ServerText(server)
    requires condition == if |parts| > 1 then Trim(parts[1]) else ""
    ensures FromLine(line) == match Parse(Tokenize(condition))
                              case Err(x) => Err(x)
                              case Ok(e) => Ok(Rule(server, e))
  {
    hide ServerText, ServerFromString, ValidServer, Parse, Tokenize, Trim, Split2;
    ServerRoundTrip(server);
  }

  lemma IsVisible(s: string)
    requires s != "" && !IsBlank(s[0]) && !IsBlank(s[|s| - 1])
    ensures Visible(s)
  {
  }

  lemma NoBlanks()
    ensures Blanks("")
  {
  }

  lemma NoText()
    ensures Trim("") == ""
  {
  }

  lemma NoCondition()
    ensures Parse(Tokenize("")) == Ok(Leaf(Const(true)))
  {
  }

  lemma DollarSplits(s: string, gap: string, rest: string)
    requires '$' !in s && Blanks(gap)
    ensures Split2(s + gap + "$" + rest, '$') == [s + gap, rest]
  {
    BlanksAreCode(gap);
    var line := (s + gap) + ['$'] + rest;
    assert line == s + gap + "$" + rest;
    assert '$' !in s + gap;
    IndexOfSeparator(s + gap, '$', rest);
    assert line[..|s + gap|] == s + gap && line[|s + gap| + 1..] == rest;
  }

  // ---------------------------------------------------------------- all lines

  lemma {:induction false} LineEndsAt(s: string, rest: string)
    requires '\n' !in s && '\r' !in s && rest != "" && (rest[0] == '\n' || rest[0] == '\r')
    ensures LineLength(s + rest) == |s|
  {
    var t := s + rest;
    if s == "" {
      assert t == rest;
    } else {
      assert t[0] == s[0] && t[1..] == s[1..] + rest;
      assert forall c | c in s[1..] :: c in s;
      LineEndsAt(s[1..], rest);
    }
  }

  lemma LinesOfEntry(s: string, end: string, rest: string)
    requires '\n' !in s && '\r' !in s && end in {"\n", "\r", "\r\n"}
    requires end == "\r" && rest != "" ==> rest[0] != '\n'
    ensures Lines(s + end + rest) == [s] + Lines(rest)
  {
    hide LineLength;
    var t := s + end + rest;
    assert t == s + (end + rest);
    LineEndsAt(s, end + rest);
    assert t[..|s|] == s && t[|s|] == end[0] && t[|s| + |end|..] == rest;
    if |end + rest| > 1 { assert t[|s| + 1] == (end + rest)[1]; }
  }

  lemma LayoutStart(es: seq<Entry>)
    requires es != [] && forall i | 0 <= i < |es| :: ValidEntry(es[i])
    ensures Layout(es) != ""
    ensures LineText(es[0]) != "" || es[0].end != "\n" ==> Layout(es)[0] != '\n'
  {
    hide LineText, ValidEntry;
    assert ValidEntry(es[0]);
    var s := LineText(es[0]);
    EntryEnd(es[0]);
    if s != "" { assert Layout(es)[0] == s[0]; } else { assert Layout(es)[0] == es[0].end[0]; }
  }

  lemma EntryEnd(e: Entry)
    requires ValidEntry(e)
    ensures e.end in {"\n", "\r", "\r\n"} && '\n' !in LineText(e)
  {
    LineCode(e);
  }

  lemma RestOfLayout(es: seq<Entry>)
    requires es != [] && ValidLayout(es)
    ensures ValidLayout(es[1..]) && ValidEntry(es[0])
    ensures es[0].end == "\r" && Layout(es[1..]) != "" ==> Layout(es[1..])[0] != '\n'
  {
    hide ValidEntry, LineText;
    var rest := es[1..];
    assert forall i | 0 <= i < |rest| :: rest[i] == es[i + 1];
    if rest != [] { LayoutStart(rest); }
  }

  /** Compiling a list in any layout gives what its lines say. */
  lemma {:induction false} LayoutCompiled(es: seq<Entry>)
    requires ValidLayout(es)
    ensures RulesOf(Lines(Layout(es))) == Compiled(es)
  {
    hide ValidEntry, ValidLayout, LineText, ItemText, FromLine, Code, Lines, RuleOf, ValidItem;
    assert forall i | 0 <= i < |es| :: ValidEntry(es[i]) by { EntriesValid(es); }
    if es == [] {
      NoLines();
    } else {
      var e, rest := es[0], es[1..];
      RestOfLayout(es);
      LayoutCompiled(rest);
      LineCode(e);
      EntryEnd(e);
      LinesOfEntry(LineText(e), e.end, Layout(rest));
      ItemOf(e);
      assert ([LineText(e)] + Lines(Layout(rest)))[1..] == Lines(Layout(rest));
    }
  }

  lemma EntriesValid(es: seq<Entry>)
    requires ValidLayout(es)
    ensures forall i | 0 <= i < |es| :: ValidEntry(es[i])
  {
  }

  lemma ItemOf(e: Entry)
    requires ValidEntry(e)
    ensures ValidItem(e.item)
    ensures if e.item.Nothing? then ItemText(e.item) == ""
            else ItemText(e.item) != "" && FromLine(ItemText(e.item)) == RuleOf(e.item)
  {
    if !e.item.Nothing? { ItemRead(e.item); }
  }
}
