/** The string operations of the Kotlin standard library that Utils.kt and RedirectRule.kt use. */
module Text {

  datatype Option<T> = None | Some(value: T)

  /** `s.indexOf(c)`, or `|s|` where Kotlin answers -1. */
  function IndexOf(s: string, c: char): (i: nat)
    ensures i <= |s| && c !in s[..i] && (i < |s| ==> s[i] == c)
  {
    if s == "" || s[0] == c then 0 else 1 + IndexOf(s[1..], c)
  }

  /** `s.split(c)`. */
  function Split(s: string, c: char): (parts: seq<string>)
    ensures parts != []
    decreases |s|
  {
    var i := IndexOf(s, c);
    if i == |s| then [s] else [s[..i]] + Split(s[i + 1..], c)
  }

  /** `s.split(c, limit = 2)`. */
  function Split2(s: string, c: char): seq<string> {
    var i := IndexOf(s, c);
    if i == |s| then [s] else [s[..i], s[i + 1..]]
  }

  /** `parts.joinToString(c)`. */
  function Join(parts: seq<string>, c: char): string
    requires parts != []
  {
    if |parts| == 1 then parts[0] else parts[0] + [c] + Join(parts[1..], c)
  }

  /** Splitting loses nothing and no part contains the separator. */
  lemma {:induction false} SplitJoins(s: string, c: char)
    ensures Join(Split(s, c), c) == s
    ensures forall i | 0 <= i < |Split(s, c)| :: c !in Split(s, c)[i]
    decreases |s|
  {
    var i := IndexOf(s, c);
    if i < |s| {
      SplitJoins(s[i + 1..], c);
      assert s == s[..i] + [c] + s[i + 1..];
    }
  }

  lemma IndexOfSeparator(head: string, c: char, tail: string)
    requires c !in head
    ensures IndexOf(head + [c] + tail, c) == |head|
    ensures IndexOf(head, c) == |head|
  {
    var s := head + [c] + tail;
    var i := IndexOf(s, c);
    assert s[|head|] == c && s[..|head|] == head;
    assert forall k | 0 <= k < i :: s[k] in s[..i];
  }

  function Count(s: string, c: char): nat {
    if s == "" then 0 else (if s[0] == c then 1 else 0) + Count(s[1..], c)
  }

  lemma {:induction false} CountConcat(a: string, b: string, c: char)
    ensures Count(a + b, c) == Count(a, c) + Count(b, c)
  {
    if a == "" {
      assert a + b == b;
    } else {
      CountConcat(a[1..], b, c);
      assert (a + b)[1..] == a[1..] + b;
    }
  }

  lemma {:induction false} CountNone(s: string, c: char)
    requires c !in s
    ensures Count(s, c) == 0
  {
    if s != "" { CountNone(s[1..], c); }
  }

  /** There is one part more than there are separators. */
  lemma {:induction false} CountParts(s: string, c: char)
    ensures |Split(s, c)| == Count(s, c) + 1
    decreases |s|
  {
    var i := IndexOf(s, c);
    if i == |s| {
      assert s[..i] == s;
      CountNone(s, c);
    } else {
      assert s == s[..i] + ([c] + s[i + 1..]);
      CountConcat(s[..i], [c] + s[i + 1..], c);
      CountNone(s[..i], c);
      CountParts(s[i + 1..], c);
    }
  }

  function DigitOf(c: char, radix: nat): Option<nat>
    requires radix == 10 || radix == 16
  {
    if '0' <= c <= '9' then Some(c as int - '0' as int)
    else if radix == 16 && 'a' <= c <= 'f' then Some(c as int - 'a' as int + 10)
    else if radix == 16 && 'A' <= c <= 'F' then Some(c as int - 'A' as int + 10)
    else None
  }

  predicate AllDigits(s: string, radix: nat)
    requires radix == 10 || radix == 16
  {
    forall i | 0 <= i < |s| :: DigitOf(s[i], radix).Some?
  }

  function Number(s: string, radix: nat): nat
    requires radix == 10 || radix == 16
    requires AllDigits(s, radix)
  {
    if s == "" then 0 else Number(s[..|s| - 1], radix) * radix + DigitOf(s[|s| - 1], radix).value
  }

  /** `s.toIntOrNull(radix)`: an optional sign, then digits, within 32 bits. */
  function ToIntOrNull(s: string, radix: nat := 10): Option<int>
    requires radix == 10 || radix == 16
  {
    if s == "" then None
    else if s[0] < '0' then
      if |s| == 1 || (s[0] != '-' && s[0] != '+') || !AllDigits(s[1..], radix) then None
      else
        var n: int := Number(s[1..], radix);
        if s[0] == '-' then (if n <= 0x8000_0000 then Some(-n) else None)
        else if n < 0x8000_0000 then Some(n) else None
    else if !AllDigits(s, radix) then None
    else if Number(s, radix) < 0x8000_0000 then Some(Number(s, radix)) else None
  }
}
