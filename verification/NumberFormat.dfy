/** formatNumber of the statistics line (internal/bridge/bridge.go). */
module NumberFormat {

  function Digit(d: nat): char
    requires d < 10
  {
    '0' + d as char
  }

  predicate IsDigit(c: char) {
    '0' <= c <= '9'
  }

  /** `%d`: the decimal numeral. */
  function Decimal(n: nat): (s: string)
    ensures s != [] && forall i | 0 <= i < |s| :: IsDigit(s[i])
  {
    if n < 10 then [Digit(n)] else Decimal(n / 10) + [Digit(n % 10)]
  }

  /** `%03d` of a number below 1000. */
  function Pad3(n: nat): (s: string)
    requires n < 1000
    ensures |s| == 3 && forall i | 0 <= i < 3 :: IsDigit(s[i])
  {
    [Digit(n / 100), Digit(n / 10 % 10), Digit(n % 10)]
  }

  function FormatNumber(n: nat): string {
    if n < 1000 then Decimal(n)
    else if n < 1000000 then Decimal(n / 1000) + "," + Pad3(n % 1000)
    else Decimal(n / 1000000) + "," + Pad3(n / 1000 % 1000) + "," + Pad3(n % 1000)
  }

  function WithoutCommas(s: string): string {
    if s == [] then []
    else WithoutCommas(s[..|s| - 1]) + if s[|s| - 1] == ',' then [] else [s[|s| - 1]]
  }

  lemma {:induction false} WithoutCommasConcat(s: string, t: string)
    ensures WithoutCommas(s + t) == WithoutCommas(s) + WithoutCommas(t)
  {
    if t == [] {
      assert s + t == s;
    } else {
      WithoutCommasConcat(s, t[..|t| - 1]);
      assert (s + t)[..|s + t| - 1] == s + t[..|t| - 1];
    }
  }

  lemma {:induction false} DigitsHaveNoCommas(s: string)
    requires forall i | 0 <= i < |s| :: IsDigit(s[i])
    ensures WithoutCommas(s) == s
  {
    if s != [] {
      DigitsHaveNoCommas(s[..|s| - 1]);
    }
  }

  lemma DigitsOfThousand(n: nat)
    ensures n / 10 / 10 / 10 == n / 1000
    ensures n % 1000 / 100 == n / 10 / 10 % 10
    ensures n % 1000 / 10 % 10 == n / 10 % 10
    ensures n % 1000 % 10 == n % 10
  {
  }

  lemma DecimalStep(n: nat)
    requires n >= 10
    ensures Decimal(n) == Decimal(n / 10) + [Digit(n % 10)]
  {
  }

  lemma DecimalSplit(n: nat)
    requires n >= 1000
    ensures Decimal(n) == Decimal(n / 1000) + Pad3(n % 1000)
  {
    var a, b := n / 10, n / 10 / 10;
    DigitsOfThousand(n);
    DecimalStep(n);
    DecimalStep(a);
    DecimalStep(b);
    assert Pad3(n % 1000) == [Digit(b % 10)] + [Digit(a % 10)] + [Digit(n % 10)];
  }

  /** Appending a comma and three digits appends three digits. */
  lemma StripGroup(s: string, k: nat)
    requires k < 1000
    ensures WithoutCommas(s + "," + Pad3(k)) == WithoutCommas(s) + Pad3(k)
  {
    WithoutCommasConcat(s + ",", Pad3(k));
    WithoutCommasConcat(s, ",");
    DigitsHaveNoCommas(Pad3(k));
    assert WithoutCommas(",") == "" by { assert ","[..0] == ""; }
  }

  /** Without its commas, the formatted number is the decimal numeral. */
  lemma FormatIsNumeral(n: nat)
    ensures WithoutCommas(FormatNumber(n)) == Decimal(n)
  {
    if n < 1000 {
      DigitsHaveNoCommas(Decimal(n));
    } else if n < 1000000 {
      DigitsHaveNoCommas(Decimal(n / 1000));
      StripGroup(Decimal(n / 1000), n % 1000);
      DecimalSplit(n);
    } else {
      var head := Decimal(n / 1000000);
      DigitsHaveNoCommas(head);
      StripGroup(head, n / 1000 % 1000);
      StripGroup(head + "," + Pad3(n / 1000 % 1000), n % 1000);
      assert n / 1000 / 1000 == n / 1000000;
      DecimalSplit(n / 1000);
      DecimalSplit(n);
    }
  }

  function DigitValue(c: char): nat
    requires IsDigit(c)
  {
    (c - '0') as nat
  }

  function NumeralValue(s: string): nat
    requires forall i | 0 <= i < |s| :: IsDigit(s[i])
  {
    if s == [] then 0 else 10 * NumeralValue(s[..|s| - 1]) + DigitValue(s[|s| - 1])
  }

  lemma {:induction false} ValueOfDecimal(n: nat)
    ensures NumeralValue(Decimal(n)) == n
  {
    var s := Decimal(n);
    if n < 10 {
      assert s[..0] == [];
    } else {
      ValueOfDecimal(n / 10);
      assert s[..|s| - 1] == Decimal(n / 10);
    }
  }

  /** Different numbers are formatted differently. */
  lemma FormatInjective(n: nat, m: nat)
    requires FormatNumber(n) == FormatNumber(m)
    ensures n == m
  {
    FormatIsNumeral(n);
    FormatIsNumeral(m);
    ValueOfDecimal(n);
    ValueOfDecimal(m);
  }

  /** Every comma is followed by exactly three digits, up to the next comma or the end. */
  predicate GroupsOfThree(s: string) {
    forall i | 0 <= i < |s| && s[i] == ',' ::
      && i + 3 < |s|
      && IsDigit(s[i + 1]) && IsDigit(s[i + 2]) && IsDigit(s[i + 3])
      && (i + 4 == |s| || s[i + 4] == ',')
  }

  /** At most three digits come before the first comma. */
  predicate ShortHead(s: string) {
    |s| <= 3 || exists i :: 0 <= i <= 3 && s[i] == ','
  }

  lemma {:induction false} DecimalWidth(n: nat)
    ensures |Decimal(n)| <= 3 <==> n < 1000
    ensures |Decimal(n)| <= 2 <==> n < 100
    ensures |Decimal(n)| <= 1 <==> n < 10
  {
    if n >= 10 {
      DecimalWidth(n / 10);
    }
  }

  /** A head of digits, then groups of a comma and three digits. */
  lemma GroupsAppended(s: string, k: nat)
    requires GroupsOfThree(s) && k < 1000
    ensures GroupsOfThree(s + "," + Pad3(k))
  {
  }

  lemma HeadBeforeComma(head: string, rest: string)
    requires forall i | 0 <= i < |head| :: IsDigit(head[i])
    ensures ShortHead(head + "," + rest) <==> |head| <= 3
  {
    var s := head + "," + rest;
    assert s[|head|] == ',';
    assert forall i | 0 <= i < |head| :: s[i] == head[i];
  }

  /**
   Groups after a comma always have three digits, but the head is at most three digits
   long exactly for numbers below 10^9: the last case inserts only two commas.
   */
  lemma Grouping(n: nat)
    ensures GroupsOfThree(FormatNumber(n))
    ensures ShortHead(FormatNumber(n)) <==> n < 1000000000
  {
    var a, b := n / 1000, n / 1000000;
    if n < 1000 {
      DecimalWidth(n);
    } else if n < 1000000 {
      DecimalWidth(a);
      HeadBeforeComma(Decimal(a), Pad3(n % 1000));
      GroupsAppended(Decimal(a), n % 1000);
    } else {
      DecimalWidth(b);
      assert Decimal(b) + "," + Pad3(a % 1000) + "," + Pad3(n % 1000) ==
             Decimal(b) + "," + (Pad3(a % 1000) + "," + Pad3(n % 1000));
      HeadBeforeComma(Decimal(b), Pad3(a % 1000) + "," + Pad3(n % 1000));
      GroupsAppended(Decimal(b), a % 1000);
      GroupsAppended(Decimal(b) + "," + Pad3(a % 1000), n % 1000);
    }
  }

  /** One comma from a thousand on, two from a million on, and never more. */
  lemma CommaCount(n: nat)
    ensures |FormatNumber(n)| - |WithoutCommas(FormatNumber(n))| == if n < 1000 then 0 else if n < 1000000 then 1 else 2
  {
    FormatIsNumeral(n);
    if n >= 1000 {
      DecimalSplit(n);
    }
    if n >= 1000000 {
      assert n / 1000 / 1000 == n / 1000000;
      DecimalSplit(n / 1000);
    }
  }
}
