/** Numbers as the texts of rules and addresses write them: signs, digits, radix and range. */
module Numerals {
  import opened Text

  /** The digits, most significant first. */
  predicate IsNumeral(ds: seq<nat>, radix: nat) {
    (radix == 10 || radix == 16) && forall i | 0 <= i < |ds| :: ds[i] < radix
  }

  function Symbol(d: nat, upper: bool): char
    requires d < 16
  {
    if upper then "0123456789ABCDEF"[d] else "0123456789abcdef"[d]
  }

  function Written(ds: seq<nat>, radix: nat, upper: bool): (s: string)
    requires IsNumeral(ds, radix)
    ensures |s| == |ds|
  {
    seq(|ds|, i requires 0 <= i < |ds| => Symbol(ds[i], upper))
  }

  function Power(radix: nat, n: nat): nat {
    if n == 0 then 1 else radix * Power(radix, n - 1)
  }

  /** The positional value. */
  function Positional(ds: seq<nat>, radix: nat): nat {
    if ds == [] then 0 else ds[0] * Power(radix, |ds| - 1) + Positional(ds[1..], radix)
  }

  lemma {:induction false} ValueFromRight(ds: seq<nat>, radix: nat)
    requires ds != []
    ensures Positional(ds, radix) == Positional(ds[..|ds| - 1], radix) * radix + ds[|ds| - 1]
  {
    if |ds| > 1 {
      var rest, front := ds[1..], ds[..|ds| - 1];
      ValueFromRight(rest, radix);
      assert rest[..|rest| - 1] == front[1..] && front[0] == ds[0];
      Distributes(ds[0], Power(radix, |front| - 1), Positional(front[1..], radix), radix);
    }
  }

  lemma Distributes(d: nat, p: nat, v: nat, radix: nat)
    ensures (d * p + v) * radix == d * (radix * p) + v * radix
  {
  }

  lemma SymbolReads(d: nat, radix: nat, upper: bool)
    requires d < radix && (radix == 10 || radix == 16)
    ensures DigitOf(Symbol(d, upper), radix) == Some(d)
  {
  }

  /** Which characters are digits. */
  lemma DigitsAre(c: char)
    ensures DigitOf(c, 10).Some? <==> c in "0123456789"
    ensures DigitOf(c, 16).Some? <==> c in "0123456789abcdefABCDEF"
  {
    var ten, low, up := "0123456789", "0123456789abcdef", "0123456789ABCDEF";
    if '0' <= c <= '9' { assert ten[c as int - 48] == c; }
    if 'a' <= c <= 'f' { assert low[c as int - 87] == c; }
    if 'A' <= c <= 'F' { assert up[c as int - 55] == c; }
  }

  lemma {:induction false} NumeralReads(ds: seq<nat>, radix: nat, upper: bool)
    requires IsNumeral(ds, radix)
    ensures var s := Written(ds, radix, upper);
            AllDigits(s, radix) && Number(s, radix) == Positional(ds, radix)
  {
    hide Symbol;
    var s := Written(ds, radix, upper);
    forall i | 0 <= i < |s| ensures DigitOf(s[i], radix) == Some(ds[i]) {
      SymbolReads(ds[i], radix, upper);
    }
    if ds != [] {
      var front := ds[..|ds| - 1];
      NumeralReads(front, radix, upper);
      assert Written(front, radix, upper) == s[..|s| - 1];
      ValueFromRight(ds, radix);
    }
  }

  /** A decimal numeral with at most one sign is read as its value exactly if that fits 32 bits. */
  lemma IntReads(sign: string, ds: seq<nat>)
    requires IsNumeral(ds, 10) && ds != [] && sign in {"", "+", "-"}
    ensures var v: int := if sign == "-" then -(Positional(ds, 10) as int) else Positional(ds, 10) as int;
            ToIntOrNull(sign + Written(ds, 10, false))
            == if -2147483648 <= v <= 2147483647 then Some(v) else None
  {
    hide Number, Positional, Symbol;
    var s := Written(ds, 10, false);
    NumeralReads(ds, 10, false);
    SymbolReads(ds[0], 10, false);
    assert s[0] == Symbol(ds[0], false) && DigitOf(s[0], 10).Some?;
    if sign == "" {
      assert sign + s == s;
    } else {
      assert (sign + s)[0] == sign[0] && (sign + s)[1..] == s;
    }
  }

  /** Nothing else is a number: at most one sign and at least one digit, and no other character. */
  lemma OnlyNumerals(s: string)
    ensures ToIntOrNull(s).Some? ==>
              && s != "" && (s[0] in "+-" ==> |s| > 1) && s[0] in "+-0123456789"
              && forall i | 1 <= i < |s| :: s[i] in "0123456789"
  {
    hide Number;
    forall c ensures DigitOf(c, 10).Some? <==> c in "0123456789" {
      DigitsAre(c);
    }
    if ToIntOrNull(s).Some? {
      assert forall i | 1 <= i < |s| :: s[i] == s[1..][i - 1];
    }
  }

  // ---------------------------------------------------------------- printing

  /** `Int.toString`. */
  function Decimal(n: nat): (s: string)
    ensures s != ""
  {
    if n < 10 then [('0' as int + n) as char] else Decimal(n / 10) + [('0' as int + n % 10) as char]
  }

  lemma {:induction false} DecimalReads(n: nat)
    ensures AllDigits(Decimal(n), 10) && Number(Decimal(n), 10) == n
  {
    var d := ('0' as int + n % 10) as char;
    assert DigitOf(d, 10) == Some(n % 10);
    if n < 10 {
      assert Decimal(n)[..0] == "";
    } else {
      DecimalReads(n / 10);
      assert Decimal(n)[..|Decimal(n)| - 1] == Decimal(n / 10);
    }
  }

  /** Digits without a leading zero are how their number prints. */
  lemma {:induction false} PrintedBack(s: string)
    requires s != "" && AllDigits(s, 10) && (s[0] == '0' ==> |s| == 1)
    ensures Decimal(Number(s, 10)) == s && (s[0] != '0' ==> Number(s, 10) > 0)
  {
    var init := s[..|s| - 1];
    if init == "" {
      assert s == [s[0]];
      assert Number("", 10) == 0;
    } else {
      PrintedBack(init);
      assert s == init + [s[|s| - 1]];
    }
  }

  lemma {:induction false} NumberSize(s: string)
    requires AllDigits(s, 10)
    ensures Number(s, 10) < Power(10, |s|)
  {
    if s != "" { NumberSize(s[..|s| - 1]); }
  }
}
